# SEO mission pipeline — a Dafny model

This project models the deterministic core of the GenSEO workshop agent. A
*mission* takes a topic (with content type, target group, location and
language) and streams events to the browser. In order, it:

1. asks the Google Ads KeywordPlanIdeaService for keyword ideas;
2. asks SerpAPI and the Google Custom Search JSON API for competitor pages;
3. merges the competitors without duplicate links and keeps the first `MAX_COMPETITORS`;
4. reads every competitor page through the Jina Reader;
5. keeps the pages with more than 50 words;
6. only when some page was kept, runs the semantic analysis, the briefing and the evaluation.

The frontend follows the stream. It lights up one step of a six-step
progress panel for each `status` event and marks the running step completed
when the `complete` event arrives.

The services and the language-model calls are not modelled. They are
*inputs*: the keyword service's answer, the SerpAPI and Custom Search
replies, a function from a URL to the Jina Reader's outcome, and functions
standing for the analysis, briefing and evaluation calls
(`Mission.Services`). Whatever these answer, the model states what the
mission does with it.

Modules, one per source file of the core:

- `Wrappers`: `Option`, `Min`.
- `Text`: lower-casing, `strip`, `split`, substring search, `str(int)`.
- `Ranking`: Python's stable sort with `reverse=True`, as a sort of (position, key, value) triples.
- `Providers`: the payload shapes of the search providers.
- `GoogleAds`: the client itself. `GoogleAdsProofs` holds its lemmas.
- `Competitors`: deduplicating merge and related searches.
- `CustomSearch`: the pagination loop.
- `JinaReader`: the page parser.
- `ContentFilter`: the 50-word filter.
- `Events`: the stream's events.
- `Researcher`: the research sub-agent.
- `ContentParser`: the parsing sub-agent.
- `Mission`: the orchestrator's event stream.
- `StepTracker`: the page's progress panel.
- `Scenarios`: worked examples.

`src/agent.py` repeats, inline, the logic of the two sub-agents:

- lines 78-124 are `researcher.py` lines 53-100;
- lines 135-150 are `content_parser.py` lines 36-50.

The mission model therefore calls `Researcher.Research` and
`ContentParser.Parse`, and its rows cite both places.

Two consequences of the merge in `researcher.py` lines 64-93:

- Links are deduplicated by exact string equality, with no URL normalisation.
- SerpAPI's results are merged first, so a page found by both providers is kept once, as a SerpAPI competitor.

The model has one way for a mission to end early. The three research
calls run under one `asyncio.gather` without `return_exceptions`
(`src/agent.py` line 75). An exception from any of them ends the stream
after the research status, with no `complete` event. An example is a Google
Ads failure other than a `GoogleAdsException`, the only exception
`google_ads.py` line 63 catches. `Mission.Services.raised` stands for that exception.

## Model

| member | source | states |
|---|---|---|
| GoogleAds.GetKeywordIdeas | src/tools/google_ads.py:40-67 | a failed request yields `{"error": msg}` with the service's message, and only then; otherwise at most 10 related and 8 proof keywords |
| GoogleAds.StripHyphens | src/tools/google_ads.py:42 | the cleaned customer id has no hyphen and holds exactly the other characters of the id |
| GoogleAdsProofs.StripHyphensAppend | src/tools/google_ads.py:42 | removing hyphens works piecewise over a concatenation |
| GoogleAdsProofs.StripHyphensKeepsPlainIds | src/tools/google_ads.py:42 | an id without hyphens is left unchanged |
| GoogleAds.ProcessResults | src/tools/google_ads.py:69-109 | at most 10 related and 8 proof keywords; no related keyword equals the seed ignoring case; a main keyword, when present, equals the seed ignoring case |
| GoogleAdsProofs.MainKeywordIsLastMatch | src/tools/google_ads.py:83-92 | the main keyword is absent exactly when no idea matches the seed ignoring case; otherwise it is the item built from the last matching idea, with "UNKNOWN" competition when the level is missing or unspecified |
| GoogleAdsProofs.RelatedKeywordsRanked | src/tools/google_ads.py:89-107 | the related keywords are the first min(n, 10) non-seed items, ordered by `avg_searches or 0` descending; equal keys keep response order; every non-seed item is ranked and the ones dropped rank after the ones kept |
| Ranking.SortDescFacts | src/tools/google_ads.py:101-102 | a stable descending sort: a permutation of the positions, keys non-increasing, ties in original order, the first `cut` before the rest |
| GoogleAdsProofs.TallyWords | src/tools/google_ads.py:95-98 | the word-count dictionary has a key exactly for each counted word |
| GoogleAdsProofs.TallyCounts | src/tools/google_ads.py:95-98 | each dictionary entry's count is the number of occurrences of its word |
| GoogleAdsProofs.TallyOrder | src/tools/google_ads.py:95-98 | dictionary entries are in first-insertion order, as Python dictionaries iterate |
| GoogleAdsProofs.RankedWordsMembers | src/tools/google_ads.py:102 | the sorted words are distinct and are exactly the counted words |
| GoogleAdsProofs.RankedWordsOrder | src/tools/google_ads.py:102 | in the sorted words, a word precedes another only if it is counted more often, or as often and first seen earlier |
| GoogleAdsProofs.TopWordsRanked | src/tools/google_ads.py:102-103 | the proof keywords are at most 8 distinct counted words in rank order; every counted word left out is outranked by every one kept; with fewer than 8 kept, none is left out |
| GoogleAdsProofs.ProofKeywordsTop | src/tools/google_ads.py:94-103 | the proof keywords are the top-ranked counted words of the response, each longer than 3 characters and not a substring of the lower-cased seed |
| GoogleAdsProofs.EveryRowCounted | src/tools/google_ads.py:74-98 | every idea row contributes its counted words, the main keyword's row included, in response order |
| GoogleAdsProofs.TextProofWordsMembers | src/tools/google_ads.py:95-97 | a word is counted from an idea text exactly when it is the lower-cased, `.,!?`-stripped form of one of its words, longer than 3 and not in the seed |
| Competitors.Collect | agent/src/seo_agent/subagents/researcher.py:73-77 | the collected competitors have distinct non-empty links, none already seen, all from the given source, and their links are exactly the valid links of the items minus those seen |
| Competitors.CollectFirstOccurrence | agent/src/seo_agent/subagents/researcher.py:73-77 | each competitor carries the title of the first item with its link |
| Competitors.CollectKeepsOrder | agent/src/seo_agent/subagents/researcher.py:73-77 | competitors appear in the order their links first occur among the items |
| Competitors.MergeLinks | agent/src/seo_agent/subagents/researcher.py:64-93 | the merged list has no duplicate link, holds the union of both providers' valid links, and an entry is SerpAPI's exactly when SerpAPI had its link |
| Competitors.MergeTitles | agent/src/seo_agent/subagents/researcher.py:73-93 | each merged entry's title is that of the first item with its link in its own provider's list |
| Competitors.MergeOrder | agent/src/seo_agent/subagents/researcher.py:64-93 | all SerpAPI entries come before all Custom Search entries, each group in first-occurrence order |
| Competitors.Top | agent/src/seo_agent/subagents/researcher.py:95 | the top competitors are the first min(n, MAX_COMPETITORS) merged entries |
| Competitors.RelatedSearches | agent/src/seo_agent/subagents/researcher.py:79-82 | related searches are the in-order truthy filter (`Truthy`) of the `related_searches` queries; failing that, of the `people_also_ask` questions; otherwise none; none after a SerpAPI error |
| Competitors.Truthy | agent/src/seo_agent/subagents/researcher.py:81-82 | the truthy filter keeps exactly the non-empty strings present; a single truthy entry gives itself and a falsy one nothing |
| Competitors.TruthyAppend | agent/src/seo_agent/subagents/researcher.py:81-82 | filtering a concatenation filters each part in order; with the single-entry case this pins down order and duplicates |
| Competitors.Merge | agent/src/seo_agent/subagents/researcher.py:64-93 | the merged list has no duplicate link and holds exactly the valid links of both providers |
| CustomSearch.Search | src/tools/custom_search.py:25-92 | the corrected loop of the first Findings row: `num <= 0` makes no request and returns `{}`; requests start at 1 and ask for what is missing of min(num, 100), at most 10 each; a failing first request gives `{"error": msg}`; otherwise every item gathered, in page order, with the last page's other fields and never more than the cap |
| CustomSearch.TraceBound | src/tools/custom_search.py:46-55 | when no page exceeds its batch, the items gathered never exceed min(num, 100) |
| CustomSearch.Advance | src/tools/custom_search.py:72-84 | the corrected step appends the page's items; it stops exactly on a missing or short page; when it goes on, the next start is one past the items gathered |
| CustomSearch.AdvanceAsWritten | src/tools/custom_search.py:72-84 | the step as written appends the page's items but tests the running total against the batch; once anything was gathered, a step that goes on starts past the items gathered |
| CustomSearch.FirstPageAgrees | src/tools/custom_search.py:72-84 | on the first page the aliasing is harmless: both loops take the same step |
| CustomSearch.AsWrittenSkipsResults | src/tools/custom_search.py:76-84 | with num = 30, the third request starts at 31 instead of 21, so results 21-30 are never requested |
| CustomSearch.AsWrittenIgnoresShortPage | src/tools/custom_search.py:76-81 | a short second page does not end the loop as written; it does in the corrected loop |
| JinaReader.Parse | src/tools/jina_reader.py:12-84 | a request error and only that gives `{"error": msg}`; a JSON body whose root is not an object, or whose `data` is truthy but not an object, raises the `AttributeError` of `.get`, and only those raise; otherwise a JSON body takes url, title, content from `data` (from the root when `data` is missing or falsy) with defaults; a text body takes the heading title; the word count is the number of whitespace-separated runs of the content |
| JinaReader.Payload | src/tools/jina_reader.py:43-47 | fields come from `data` when it is a non-empty object, from the root when it is absent or falsy, and from nowhere when it is truthy but not an object |
| JinaReader.HeadingTitle | src/tools/jina_reader.py:68-71 | text whose first line is `# h` has title `h` stripped |
| JinaReader.NoHeadingNoTitle | src/tools/jina_reader.py:68-71 | text not starting with `# ` has title "No Title Found" |
| ContentFilter.Filter | agent/src/seo_agent/subagents/content_parser.py:36-50 | one log line per competitor; the analysed content and kept competitors have equal length, at most the number of competitors |
| ContentFilter.MisshapenReplyFails | agent/src/seo_agent/subagents/content_parser.py:38-39 | a JSON reply of the wrong shape is logged `[FAIL]` with the `AttributeError` message and never kept |
| ContentFilter.FilterLogs | agent/src/seo_agent/subagents/content_parser.py:36-50 | each URL gets one log line, in order: `[FAIL]` with the reason for an exception, `[OK]` with the word count for more than 50 words, `[SKIP]` otherwise |
| ContentFilter.FilterKeepsIndices | agent/src/seo_agent/subagents/content_parser.py:40-48 | the analysed content and kept competitors are exactly the results with more than 50 words, in order, each with its competitor's title, link, word count and source |
| ContentFilter.KeptLinksInOrder | agent/src/seo_agent/subagents/content_parser.py:40-48 | kept competitors keep their links and their relative order |
| ContentFilter.KeepBoundary | agent/src/seo_agent/subagents/content_parser.py:40 | 50 words are skipped and 51 kept; a reader error and an exception are never kept |
| ContentParser.Parse | agent/src/seo_agent/subagents/content_parser.py:20-52 | one log line per URL; analysed content and kept competitors have equal length, at most the number of URLs |
| ContentParser.ParseLogs | agent/src/seo_agent/subagents/content_parser.py:30-50 | the i-th log line names the i-th URL; it is `[FAIL]` iff parsing raised, `[OK]` iff the page is kept |
| ContentParser.ParseKeeps | agent/src/seo_agent/subagents/content_parser.py:30-50 | the kept entries correspond, in order, to exactly the URLs whose page has more than 50 words |
| Researcher.Research | agent/src/seo_agent/subagents/researcher.py:21-102 | the keyword data is the keyword reply; at most MAX_COMPETITORS competitors; the logs end with the competitors data and the "Found n competitors and m related searches." line |
| Researcher.ResearchCompetitors | agent/src/seo_agent/subagents/researcher.py:64-96 | competitors have distinct valid links, SerpAPI entries first, a SerpAPI entry exactly when SerpAPI had the link, and every valid link is present when fewer than the maximum were kept |
| Researcher.ResearchLog | agent/src/seo_agent/subagents/researcher.py:53-100 | the research log has at least one entry before its last two, and ends with the competitors data and the "Found n competitors and m related searches." line for the competitors and related searches passed |
| Researcher.ResearchLogHead | agent/src/seo_agent/subagents/researcher.py:53-61 | a keyword error logs a google_ads error; otherwise up to 10 keywords as data, then a summary naming the first 5 |
| Researcher.ResearchLogErrors | agent/src/seo_agent/subagents/researcher.py:53-100 | the research log holds exactly one error per failed provider, in the order google_ads, serp_api, custom_search |
| Mission.ContextKeyword | src/agent.py:155 | the context keyword starts with "topic (Type: " and ends with ")" |
| Mission.ContextKeywordFirstFive | src/agent.py:155 | related searches after the fifth do not change the context keyword |
| Mission.ContextKeywordNames | src/agent.py:155 | the context keyword names the content type, the target group and each of the first five related searches |
| Text.JoinContains | src/agent.py:155 | every part of `sep.join(xs)` occurs in the joined string |
| Mission.FinalReport | src/agent.py:54-174 | the report carries the request, keyword data, related searches and kept competitors; with nothing analysed the language-model fields keep their initial values; otherwise the analysis gets the context keyword, the briefing sees the report with the analysis, and the evaluation sees the briefing and the report holding both |
| Mission.Stream | src/agent.py:52-176 | the assembled stream opens with the init and research statuses, ends with the completion carrying the report, and has one entry per log line plus the four fixed entries and the language-model entries |
| Mission.ExecuteMission | src/agent.py:52-176 | the stream opens with the init and research statuses; when the research `gather` raises it stops right there; otherwise it has at least four events; it ends with `complete` exactly when the research did not raise |
| Mission.Outcome | src/agent.py:75-176 | a mission has a report exactly when its research did not raise |
| Mission.StreamSegments | src/agent.py:69-150 | after the two opening statuses the stream carries the research log, the "Parsing n URLs..." status and the parse log, in that order |
| Mission.MissionStream | src/agent.py:52-176 | no event but the last is `complete`; when the research raised the stream is exactly the init and research statuses; otherwise the statuses are init, research, parsing, then analysis, briefing and evaluation exactly when some page was kept |
| Mission.FinalReportFields | src/agent.py:54-174 | the report carries the request, keyword data, related searches and kept competitors; with none kept, empty analysis, briefing and evaluation and no language-model events; otherwise each call's answer fed to the next |
| Mission.MissionReport | src/agent.py:52-176 | no report when the research raised; otherwise the final report of the whole mission, as above, with keyword data and related searches taken from the providers' replies |
| StepTracker.Reset | frontend/app/page.tsx:54 | starting a mission sets every step back to pending and keeps ids and labels |
| StepTracker.ActiveStepAsWritten | frontend/app/page.tsx:116-124 | the page's matching picks a step whose keyword the lower-cased message contains, picks none exactly when no keyword occurs, and picks the evaluation only when "briefing" does not occur |
| StepTracker.ActiveStep | frontend/app/page.tsx:116-124 | the corrected matching picks a step whose keyword occurs, none exactly when no keyword occurs, and the briefing only when "evaluating" does not occur |
| StepTracker.ActiveStepOrders | frontend/app/page.tsx:119-124 | the page's matching and the corrected one disagree exactly on messages that mention both "briefing" and "evaluating" and no earlier step |
| StepTracker.Activate | frontend/app/page.tsx:126-131 | the matched step runs and only it; any other running step completes; all other steps are unchanged |
| StepTracker.ActivateRunsOne | frontend/app/page.tsx:126-131 | with distinct ids, at most one step is running afterwards |
| StepTracker.UpdateStepStatus | frontend/app/page.tsx:113-133 | an empty or unrecognised message leaves the panel unchanged; a recognised one activates its step |
| StepTracker.CompleteRunning | frontend/app/page.tsx:94 | the complete event turns the running step to completed and nothing else |
| StepTracker.Apply | frontend/app/page.tsx:78-100 | one event keeps the steps, their ids and labels; at most one step runs afterwards if at most one ran; after `complete` none runs; log, data and error events change nothing |
| StepTracker.Track | frontend/app/page.tsx:66-100 | following a stream keeps the steps, their ids and labels, keeps at most one step running, and leaves none running when the stream ends with `complete` |
| StepTracker.TrackAppend | frontend/app/page.tsx:66-100 | following a stream in two parts gives the same panel as following it whole |
| StepTracker.StatusMessagesRecognised | frontend/app/page.tsx:116-124 | with the corrected order, each status message of the mission activates its own step |
| StepTracker.StatusMessagesAsWritten | frontend/app/page.tsx:116-124 | with the page's order, every status message activates its own step except "Evaluating Briefing...", which activates the briefing |
| StepTracker.EvaluationRecognised | frontend/app/page.tsx:119-124 | "Evaluating Briefing..." activates the evaluation step under the corrected order and the briefing step under the page's |
| StepTracker.MissionBoard | frontend/app/page.tsx:66-133 | with the corrected order, a finished mission leaves init, research and parsing completed, and also analysis, briefing and evaluation when a page was kept; the rest pending, none running; when the research raised, init is completed and research is left running |
| StepTracker.MissionBoardAsWritten | frontend/app/page.tsx:66-133 | with the page's order, a mission that kept a page ends with the evaluation step still pending |
| Scenarios.DuplicateAcrossProviders | agent/src/seo_agent/subagents/researcher.py:64-95 | SerpAPI a1 a2 a3 and Custom Search b1 a2 merge to a1 a2 a3 (SerpAPI) then b1 (Custom Search); the repeated a2 is dropped |
| Scenarios.DataShapes | src/tools/jina_reader.py:43-54 | `{"data": "x", "content": "a b"}` raises `'str' object has no attribute 'get'`; with an empty `data` object or no `data` the root's two words are read |
| Scenarios.WordCountThreshold | agent/src/seo_agent/subagents/content_parser.py:36-50 | pages of 10, 60 and 200 words log SKIP, OK, OK; the last two are kept |

## Left out

- Network calls and service clients are inputs. This covers the Google Ads, SerpAPI, Custom Search and Jina Reader HTTP calls, their environment-variable set-up, and the language-model clients for analysis, briefing and evaluation.
- The contents of `semantic_analysis.py`, `content_briefing.py` and `evaluation.py` are not part of this model.
- `serp_api.py` is not part of this model; its reply is an input.
- `asyncio.gather` concurrency is modelled by sequences aligned with their inputs. The order of results is what gather guarantees; interleaving is not modelled.
- The `backend/main.py` server-sent-events wrapper is not modelled.
- On the page, the log list, the briefing panel and the connection-error handler are not modelled. Only the step panel is.
- The page's `'error'` step status is not modelled, because no code sets it.
- A non-string status message, which the page ignores, is modelled as the empty message.
- `Text.Lower` lower-cases ASCII and Latin-1 letters only. Python's `str.lower` and JavaScript's `toLowerCase` cover all of Unicode.
- `GoogleAds.ItemOf`: `avg_monthly_searches` is `Option<int>`, with `None` for a missing value. The `str(dict)` rendering of keyword items in log messages is a parameter of `Events.Render`.
- `JinaReader.Parse`: the `title`, `content` and `url` fields are assumed to be strings or absent. A non-string `content` would make `.split()` raise; that case is not modelled. A non-object root or `data` member is modelled only by its Python type name.
- `Researcher.Research`: the sub-agent's own research `gather` (`researcher.py` line 43) can raise like the mission's, but the model always returns a result. The mission models that exception (`Mission.Services.raised`); the sub-agent's callers are not part of this model.
- `Mission.ExecuteMission`: the model does not say which research call raised or with what message. What the server wrapper and the page do with a stream that ends without `complete` is not modelled. The analysis, briefing and evaluation calls are total functions here; their clients in `src/tools` are not part of this model.
- A reply that is neither JSON nor text does not exist in the model.
- The debug `print` calls are not modelled.
- `CustomSearch.AdvanceAsWritten` is modelled one step at a time. Where the as-written loop would run on without a bound, the model does not follow it.
- Python's negative slice indices do not occur in the modelled code and are not modelled.
- The fetcher agent and the ADK `agent.py` wrappers are not part of this model. Neither are the tool registrations in `seo_agent/tools`.

## Findings

| source | as written | input that shows it | evidently intended | confidence | as-written member | corrected member |
|---|---|---|---|---|---|---|
| src/tools/custom_search.py:76-84 | `combined_response = data` aliases the page. `combined_response["items"] = all_items` then makes `data["items"]` the running total. The `"items" not in data` test never holds. The short-page test and `start_index += len(data["items"])` use the total. | `num = 30` with full pages of 10: the third request starts at 31, skipping results 21-30. A second page of 5 does not stop the loop. | advance by the page's own length and stop on a short or missing page | high (not executed) | CustomSearch.AdvanceAsWritten (CustomSearch.AsWrittenSkipsResults, CustomSearch.AsWrittenIgnoresShortPage) | CustomSearch.Advance (CustomSearch.Search) |
| frontend/app/page.tsx:119-124 | `'briefing'` is tested before `'evaluating'` | The mission's status "Evaluating Briefing..." lights up the briefing step again. The evaluation step stays pending at the end of a mission. | test `'evaluating'` before `'briefing'` so the evaluation step runs | high (not executed) | StepTracker.ActiveStepAsWritten (StepTracker.EvaluationRecognised, StepTracker.MissionBoardAsWritten) | StepTracker.ActiveStep (StepTracker.MissionBoard) |
