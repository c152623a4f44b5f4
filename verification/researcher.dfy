/**
 * `Researcher.research`: the keyword, SerpAPI and Custom Search results
 * (inputs, aligned as `asyncio.gather` returns them) turned into the
 * research record with its `logs`.  The mission orchestrator runs the same
 * steps and streams the same entries as events.
 */
module Researcher {
  import opened Wrappers
  import opened GoogleAds
  import opened Providers
  import opened Competitors
  import opened Events

  /** How many keyword texts the data entry carries, and how many the summary names. */
  const KeywordsShown: nat := 10
  const KeywordsNamed: nat := 5

  datatype ResearchResult = ResearchResult(
    keywordData: KeywordReply,
    competitors: seq<Competitor>,
    relatedSearches: seq<string>,
    logs: seq<Event>)

  /** The entries for the keyword result: one error, or the data entry and the summary. */
  function KeywordEvents(kw: KeywordReply): seq<Event> {
    match kw
    case KeywordsFailed(message) => [Error(GoogleAdsError, message)]
    case KeywordsReady(ideas) =>
      var ks := ideas.relatedKeywords;
      [KeywordsData(ks[..Min(|ks|, KeywordsShown)]), Log(KeywordsSummary(|ks|, ks[..Min(|ks|, KeywordsNamed)]))]
  }

  /** One error entry per provider that answered with an error, SerpAPI first. */
  function ProviderErrors(serp: SerpReply, custom: CustomReply): seq<Event> {
    (if serp.SerpFailed? then [Error(SerpApiError, serp.message)] else [])
    + (if custom.CustomFailed? then [Error(CustomSearchError, custom.message)] else [])
  }

  /** The research log for the given replies, competitor list and related searches. */
  function ResearchLog(kw: KeywordReply, serp: SerpReply, custom: CustomReply, top: seq<Competitor>, related: seq<string>): (logs: seq<Event>)
    ensures |logs| >= 3
    ensures logs[|logs| - 2] == CompetitorsData(top)
    ensures logs[|logs| - 1] == Log(CompetitorsSummary(|top|, |related|))
  {
    KeywordEvents(kw) + ProviderErrors(serp, custom)
    + [CompetitorsData(top), Log(CompetitorsSummary(|top|, |related|))]
  }

  function Research(kw: KeywordReply, serp: SerpReply, custom: CustomReply, maxCompetitors: nat): (r: ResearchResult)
    ensures r.keywordData == kw
    ensures |r.competitors| <= maxCompetitors
    ensures |r.logs| >= 3
    ensures r.logs[|r.logs| - 2] == CompetitorsData(r.competitors)
    ensures r.logs[|r.logs| - 1] == Log(CompetitorsSummary(|r.competitors|, |r.relatedSearches|))
  {
    var top := Top(MergeReplies(serp, custom), maxCompetitors);
    var related := RelatedSearches(serp);
    ResearchResult(kw, top, related, ResearchLog(kw, serp, custom, top, related))
  }

  /**
   * The competitors are the first `maxCompetitors` of the merge: distinct
   * links, SerpAPI entries first, every link usable and returned by one of
   * the providers that did not fail; when fewer than `maxCompetitors` are
   * listed, every such link is.
   */
  lemma ResearchCompetitors(kw: KeywordReply, serp: SerpReply, custom: CustomReply, maxCompetitors: nat)
    ensures var cs := Research(kw, serp, custom, maxCompetitors).competitors;
      var valid := ValidLinks(OrganicOf(serp)) + ValidLinks(CustomItemsOf(custom));
      && DistinctLinks(cs)
      && (forall k :: 0 <= k < |cs| ==> cs[k].link in valid)
      && (forall i, j :: 0 <= i < j < |cs| && cs[j].source == SerpApi ==> cs[i].source == SerpApi)
      && (forall k :: 0 <= k < |cs| ==> (cs[k].source == SerpApi <==> cs[k].link in ValidLinks(OrganicOf(serp))))
      && (|cs| < maxCompetitors ==> Links(cs) == valid)
  {
    var m := MergeReplies(serp, custom);
    var cs := Research(kw, serp, custom, maxCompetitors).competitors;
    MergeLinks(OrganicOf(serp), CustomItemsOf(custom));
    MergeOrder(OrganicOf(serp), CustomItemsOf(custom));
    assert forall k :: 0 <= k < |cs| ==> cs[k] == m[k] && m[k].link in Links(m);
    if |cs| < maxCompetitors {
      assert cs == m;
    }
  }

  /** The five keywords named are the first five of the ten shown. */
  lemma ShownPrefix(ks: seq<KeywordItem>)
    ensures var shown := ks[..Min(|ks|, KeywordsShown)];
      shown[..Min(|shown|, KeywordsNamed)] == ks[..Min(|ks|, KeywordsNamed)]
  {
  }

  /**
   * The log opens with the keyword entries: the `google_ads` error, or the
   * data entry with at most ten keywords followed by the summary naming the
   * first five of them and counting all of them.
   */
  lemma ResearchLogHead(kw: KeywordReply, serp: SerpReply, custom: CustomReply, top: seq<Competitor>, related: seq<string>)
    ensures var logs := ResearchLog(kw, serp, custom, top, related);
      && (kw.KeywordsFailed? ==> logs[0] == Error(GoogleAdsError, kw.message))
      && (kw.KeywordsReady? ==>
            logs[0].KeywordsData? && |logs[0].keywords| <= KeywordsShown
            && logs[1] == Log(KeywordsSummary(|kw.ideas.relatedKeywords|, logs[0].keywords[..Min(|logs[0].keywords|, KeywordsNamed)])))
  {
    if kw.KeywordsReady? {
      ShownPrefix(kw.ideas.relatedKeywords);
    }
  }

  lemma KeywordErrorSources(kw: KeywordReply)
    ensures ErrorSources(KeywordEvents(kw)) == if kw.KeywordsFailed? then [GoogleAdsError] else []
  {
    var ke := KeywordEvents(kw);
    if kw.KeywordsFailed? {
      assert ke == [ke[0]] + [];
      ErrorSourcesCons(ke[0], []);
    } else {
      assert ke == [ke[0]] + ([ke[1]] + []);
      ErrorSourcesCons(ke[1], []);
      ErrorSourcesCons(ke[0], [ke[1]] + []);
    }
  }

  lemma ProviderErrorSources(serp: SerpReply, custom: CustomReply)
    ensures ErrorSources(ProviderErrors(serp, custom)) ==
      (if serp.SerpFailed? then [SerpApiError] else []) + (if custom.CustomFailed? then [CustomSearchError] else [])
  {
    var se := if serp.SerpFailed? then [Error(SerpApiError, serp.message)] else [];
    var ce := if custom.CustomFailed? then [Error(CustomSearchError, custom.message)] else [];
    if se != [] {
      assert se == [se[0]] + [];
      ErrorSourcesCons(se[0], []);
    }
    if ce != [] {
      assert ce == [ce[0]] + [];
      ErrorSourcesCons(ce[0], []);
    }
    ErrorSourcesAppend(se, ce);
  }

  /**
   * The log's error entries, in order: `google_ads`, then `serp_api`, then
   * `custom_search`, each present exactly when that service failed.
   */
  lemma ResearchLogErrors(kw: KeywordReply, serp: SerpReply, custom: CustomReply, top: seq<Competitor>, related: seq<string>)
    ensures ErrorSources(ResearchLog(kw, serp, custom, top, related)) ==
      (if kw.KeywordsFailed? then [GoogleAdsError] else [])
      + (if serp.SerpFailed? then [SerpApiError] else [])
      + (if custom.CustomFailed? then [CustomSearchError] else [])
  {
    CompetitorEntriesQuiet(top, related);
    KeywordErrorSources(kw);
    ProviderErrorSources(serp, custom);
    ErrorSourcesAround(KeywordEvents(kw), ProviderErrors(serp, custom), [CompetitorsData(top), Log(CompetitorsSummary(|top|, |related|))]);
  }

  lemma CompetitorEntriesQuiet(top: seq<Competitor>, related: seq<string>)
    ensures ErrorSources([CompetitorsData(top), Log(CompetitorsSummary(|top|, |related|))]) == []
  {
    var tail := [CompetitorsData(top), Log(CompetitorsSummary(|top|, |related|))];
    assert tail == [tail[0]] + ([tail[1]] + []);
    ErrorSourcesCons(tail[1], []);
    ErrorSourcesCons(tail[0], [tail[1]] + []);
  }

  lemma ErrorSourcesAround(a: seq<Event>, b: seq<Event>, tail: seq<Event>)
    requires ErrorSources(tail) == []
    ensures ErrorSources(a + b + tail) == ErrorSources(a) + ErrorSources(b)
  {
    ErrorSourcesAppend(a, b);
    ErrorSourcesAppend(a + b, tail);
  }
}
