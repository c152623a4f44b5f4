/**
 * The records the mission streams and returns: the event stream's tagged
 * events, the log lines, and the final report.  LLM results are opaque
 * values.
 */
module Events {
  import opened Wrappers
  import opened Text
  import opened GoogleAds
  import opened Competitors
  import opened JinaReader

  /** The six steps of the mission, as named in `"step"` and in the front end. */
  datatype Step = Init | Research | Parsing | Analysis | Briefing | Evaluation

  /** The `"source"` of an error event. */
  datatype ErrorSource = GoogleAdsError | SerpApiError | CustomSearchError

  function SourceName(s: ErrorSource): string {
    match s
    case GoogleAdsError => "google_ads"
    case SerpApiError => "serp_api"
    case CustomSearchError => "custom_search"
  }

  /**
   * The `"log"` messages, kept as the values they are built from; `Render`
   * spells them out.
   */
  datatype LogLine =
    | KeywordsSummary(total: nat, top: seq<KeywordItem>)
    | CompetitorsSummary(competitors: nat, relatedSearches: nat)
    | ParseFail(url: string, reason: string)
    | ParseOk(url: string, words: nat)
    | ParseSkip(url: string)

  /** The log text; `show` renders a keyword record the way `str()` does. */
  function Render(line: LogLine, show: KeywordItem -> string): string {
    match line
    case KeywordsSummary(total, top) =>
      "Found " + NatToString(total) + " keywords. Top 5: " + Join(", ", seq(|top|, i requires 0 <= i < |top| => show(top[i]))) + "..."
    case CompetitorsSummary(c, r) =>
      "Found " + NatToString(c) + " competitors and " + NatToString(r) + " related searches."
    case ParseFail(url, reason) => "[FAIL] " + url + ": " + reason
    case ParseOk(url, words) => "[OK] " + url + " (" + NatToString(words) + " words)"
    case ParseSkip(url) => "[SKIP] " + url + " (Low content)"
  }

  /** A competitor whose page was kept, with the page's word count. */
  datatype KeptCompetitor = KeptCompetitor(title: Option<string>, link: string, wordCount: nat, source: Source)

  /** The semantic-analysis result: `{}` until the analysis ran, then the LLM's answer. */
  datatype SemanticAnalysis = NoAnalysis | AnalysisResult(value: string)

  datatype MissionRequest = MissionRequest(topic: string, contentType: string, targetGroup: string, location: string, language: string)

  /**
   * The `report` dictionary once the research step has filled in
   * `keyword_data`: the request's fields, the keyword result or error, the
   * kept competitors, the related searches, and the three LLM results
   * (`{}`, `""`, `""` until they run).
   */
  datatype Report = Report(
    request: MissionRequest,
    keywordData: KeywordReply,
    competitors: seq<KeptCompetitor>,
    relatedSearches: seq<string>,
    semanticAnalysis: SemanticAnalysis,
    briefing: string,
    evaluation: string)

  datatype Event =
    | Status(step: Step, message: string)
    | KeywordsData(keywords: seq<KeywordItem>)
    | CompetitorsData(competitors: seq<Competitor>)
    | AnalysisData(analysis: SemanticAnalysis)
    | BriefingData(briefing: string)
    | EvaluationData(evaluation: string)
    | Log(line: LogLine)
    | Error(source: ErrorSource, message: string)
    | Complete(report: Report)

  /** Wraps log lines as log events. */
  function LogEvents(lines: seq<LogLine>): (events: seq<Event>)
    ensures |events| == |lines|
    ensures forall i :: 0 <= i < |lines| ==> events[i] == Log(lines[i])
  {
    seq(|lines|, i requires 0 <= i < |lines| => Log(lines[i]))
  }

  /** The sources of the error events, in stream order. */
  function ErrorSources(events: seq<Event>): seq<ErrorSource> {
    if |events| == 0 then []
    else (if events[0].Error? then [events[0].source] else []) + ErrorSources(events[1..])
  }

  lemma ErrorSourcesCons(e: Event, rest: seq<Event>)
    ensures ErrorSources([e] + rest) == (if e.Error? then [e.source] else []) + ErrorSources(rest)
  {
    assert ([e] + rest)[1..] == rest;
  }

  lemma {:induction false} ErrorSourcesAppend(a: seq<Event>, b: seq<Event>)
    ensures ErrorSources(a + b) == ErrorSources(a) + ErrorSources(b)
    decreases |a|
  {
    if |a| > 0 {
      assert (a + b)[1..] == a[1..] + b;
      ErrorSourcesAppend(a[1..], b);
    } else {
      assert a + b == b;
    }
  }

  /** The steps of the status events, in stream order. */
  function StatusSteps(events: seq<Event>): (steps: seq<Step>)
    ensures |steps| <= |events|
  {
    if |events| == 0 then []
    else (if events[0].Status? then [events[0].step] else []) + StatusSteps(events[1..])
  }

  lemma StatusStepsCons(e: Event, rest: seq<Event>)
    ensures StatusSteps([e] + rest) == (if e.Status? then [e.step] else []) + StatusSteps(rest)
  {
    assert ([e] + rest)[1..] == rest;
  }

  lemma {:induction false} StatusStepsAppend(a: seq<Event>, b: seq<Event>)
    ensures StatusSteps(a + b) == StatusSteps(a) + StatusSteps(b)
    decreases |a|
  {
    if |a| > 0 {
      assert (a + b)[1..] == a[1..] + b;
      StatusStepsAppend(a[1..], b);
    } else {
      assert a + b == b;
    }
  }

  /** A stream without status events contributes no steps. */
  lemma {:induction false} NoStatusNoSteps(events: seq<Event>)
    requires forall i :: 0 <= i < |events| ==> !events[i].Status?
    ensures StatusSteps(events) == []
    decreases |events|
  {
    if |events| > 0 {
      NoStatusNoSteps(events[1..]);
    }
  }
}
