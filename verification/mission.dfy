/**
 * `SEOAgent.execute_mission`: the event stream of one mission.  The
 * outside services are inputs: the three research replies as
 * `asyncio.gather` returns them, or the exception it propagates instead,
 * the page parser as a function of the URL, and the three LLM steps as
 * functions of exactly the arguments the code passes them.
 */
module Mission {
  import opened Wrappers
  import opened Text
  import opened GoogleAds
  import opened Providers
  import opened Competitors
  import opened JinaReader
  import opened Events
  import opened ContentFilter
  import Researcher
  import ContentParser

  /**
   * `raised` is the exception one of the three research calls lets
   * escape, if any: the research `gather` runs without
   * `return_exceptions`, so such an exception replaces all three replies
   * and ends the mission.
   */
  datatype Services = Services(
    keywords: KeywordReply,
    serp: SerpReply,
    custom: CustomReply,
    raised: Option<string>,
    parse: string -> ParseOutcome,
    analyze: (seq<ParseResult>, string, string) -> SemanticAnalysis,
    brief: (Report, string) -> string,
    evaluate: (string, Report) -> string)

  function StartMessage(topic: string): string {
    "Starting mission for '" + topic + "'..."
  }

  const ResearchMessage := "Running Keywords, SerpAPI & " + "Custom Search in Parallel..."

  function ParsingMessage(n: nat): string {
    "Parsing " + NatToString(n) + " URLs..."
  }

  const AnalysisMessage := "Running Semantic Analysis..."
  const BriefingMessage := "Generating Content Briefing..."
  const EvaluationMessage := "Evaluating Briefing..."

  /** How many related searches the analysis context names. */
  const ContextRelated: nat := 5

  /** The context string handed to the semantic analysis. */
  function ContextKeyword(req: MissionRequest, related: seq<string>): (s: string)
    ensures StartsWith(s, req.topic + " (Type: ")
    ensures s[|s| - 1] == ')'
  {
    var head := req.topic + " (Type: ";
    var s := head + req.contentType + ", Target: " + req.targetGroup
      + ", Related: " + Join(", ", related[..Min(|related|, ContextRelated)]) + ")";
    assert s[..|head|] == head;
    s
  }

  /** Only the first five related searches reach the context: the rest may be dropped without changing it. */
  lemma ContextKeywordFirstFive(req: MissionRequest, related: seq<string>)
    ensures ContextKeyword(req, related) == ContextKeyword(req, related[..Min(|related|, ContextRelated)])
  {
    var first := related[..Min(|related|, ContextRelated)];
    assert first[..Min(|first|, ContextRelated)] == first;
  }

  /** The context names the content type, the target group and each of the first five related searches. */
  lemma ContextKeywordNames(req: MissionRequest, related: seq<string>)
    ensures var s := ContextKeyword(req, related);
      && Contains(s, req.contentType)
      && Contains(s, req.targetGroup)
      && forall i :: 0 <= i < Min(|related|, ContextRelated) ==> Contains(s, related[i])
  {
    var first := related[..Min(|related|, ContextRelated)];
    var j := Join(", ", first);
    var a := req.topic + " (Type: ";
    var b := ", Target: ";
    var c := ", Related: ";
    assert ContextKeyword(req, related) == a + req.contentType + b + req.targetGroup + c + j + ")";
    assert OccursAt(req.contentType, req.contentType, 0) by {
      assert req.contentType[0..|req.contentType|] == req.contentType;
    }
    assert OccursAt(req.targetGroup, req.targetGroup, 0) by {
      assert req.targetGroup[0..|req.targetGroup|] == req.targetGroup;
    }
    ContainsAppend(a, req.contentType, req.contentType);
    ContainsAppend(a + req.contentType, b, req.contentType);
    ContainsAppend(a + req.contentType + b, req.targetGroup, req.targetGroup);
    ContainsAppend(a + req.contentType + b, req.targetGroup, req.contentType);
    var d := a + req.contentType + b + req.targetGroup;
    ContainsAppend(d, c, req.contentType);
    ContainsAppend(d, c, req.targetGroup);
    ContainsAppend(d + c, j, req.contentType);
    ContainsAppend(d + c, j, req.targetGroup);
    ContainsAppend(d + c + j, ")", req.contentType);
    ContainsAppend(d + c + j, ")", req.targetGroup);
    forall i | 0 <= i < |first|
      ensures Contains(ContextKeyword(req, related), related[i])
    {
      assert first[i] == related[i];
      JoinContains(", ", first, i);
      ContainsAppend(d + c, j, related[i]);
      ContainsAppend(d + c + j, ")", related[i]);
    }
  }

  /** The report as the research and parsing steps leave it. */
  function BaseReport(req: MissionRequest, research: Researcher.ResearchResult, parsed: ContentParser.ParsedContent): Report {
    Report(req, research.keywordData, parsed.competitorsWithContent, research.relatedSearches, NoAnalysis, "", "")
  }

  /**
   * The report the mission completes with: when some page was kept, the
   * analysis, then the briefing written from the report holding the
   * analysis, then the evaluation of that briefing against the report
   * holding both.
   */
  function FinalReport(req: MissionRequest, s: Services, research: Researcher.ResearchResult, parsed: ContentParser.ParsedContent): (r: Report)
    ensures r.request == req && r.keywordData == research.keywordData
    ensures r.relatedSearches == research.relatedSearches && r.competitors == parsed.competitorsWithContent
    ensures parsed.analyzedContent == [] ==> r.semanticAnalysis == NoAnalysis && r.briefing == "" && r.evaluation == ""
    ensures parsed.analyzedContent != [] ==>
      && r.semanticAnalysis == s.analyze(parsed.analyzedContent, ContextKeyword(req, research.relatedSearches), req.language)
      && r.briefing == s.brief(r.(briefing := "", evaluation := ""), req.language)
      && r.evaluation == s.evaluate(r.briefing, r.(evaluation := ""))
  {
    var base := BaseReport(req, research, parsed);
    if parsed.analyzedContent == [] then base
    else
      var withAnalysis := base.(semanticAnalysis := s.analyze(parsed.analyzedContent, ContextKeyword(req, research.relatedSearches), req.language));
      var withBriefing := withAnalysis.(briefing := s.brief(withAnalysis, req.language));
      withBriefing.(evaluation := s.evaluate(withBriefing.briefing, withBriefing))
  }

  /** The analysis, briefing and evaluation entries; none when no page was kept. */
  function LlmEvents(report: Report, parsed: ContentParser.ParsedContent): (events: seq<Event>)
    ensures |events| == if parsed.analyzedContent == [] then 0 else 6
  {
    if parsed.analyzedContent == [] then []
    else
      [Status(Analysis, AnalysisMessage), AnalysisData(report.semanticAnalysis),
       Status(Briefing, BriefingMessage), BriefingData(report.briefing),
       Status(Evaluation, EvaluationMessage), EvaluationData(report.evaluation)]
  }

  /** The stream assembled from the step results. */
  function Stream(req: MissionRequest, research: Researcher.ResearchResult, parsed: ContentParser.ParsedContent, report: Report): (events: seq<Event>)
    ensures |events| == 4 + |research.logs| + |parsed.logs| + |LlmEvents(report, parsed)|
    ensures events[0] == Status(Init, StartMessage(req.topic))
    ensures events[1] == Status(Research, ResearchMessage)
    ensures events[|events| - 1] == Complete(report)
  {
    [Status(Init, StartMessage(req.topic)), Status(Research, ResearchMessage)] + research.logs
    + [Status(Parsing, ParsingMessage(|research.competitors|))] + parsed.logs
    + LlmEvents(report, parsed)
    + [Complete(report)]
  }

  /**
   * The mission's stream.  An exception out of the research `gather`
   * escapes the generator right after the research status: nothing else
   * is yielded, in particular no completion.
   */
  function ExecuteMission(req: MissionRequest, maxCompetitors: nat, s: Services): (events: seq<Event>)
    ensures |events| >= 2
    ensures events[0] == Status(Init, StartMessage(req.topic))
    ensures events[1] == Status(Research, ResearchMessage)
    ensures s.raised.Some? ==> |events| == 2
    ensures s.raised.None? ==> |events| >= 4
    ensures events[|events| - 1].Complete? <==> s.raised.None?
  {
    var opening := [Status(Init, StartMessage(req.topic)), Status(Research, ResearchMessage)];
    if s.raised.Some? then opening
    else
      var research := Researcher.Research(s.keywords, s.serp, s.custom, maxCompetitors);
      var parsed := ContentParser.Parse(research.competitors, s.parse);
      Stream(req, research, parsed, FinalReport(req, s, research, parsed))
  }

  /** The report carried by the last event; none when the mission raised. */
  function Outcome(req: MissionRequest, maxCompetitors: nat, s: Services): (r: Option<Report>)
    ensures r.Some? <==> s.raised.None?
  {
    var events := ExecuteMission(req, maxCompetitors, s);
    if events[|events| - 1].Complete? then Some(events[|events| - 1].report) else None
  }

  /** The entries a research step may record: errors, keyword and competitor data, and log lines. */
  predicate ResearchEntry(e: Event) {
    e.Error? || e.KeywordsData? || e.CompetitorsData? || e.Log?
  }

  lemma ResearchEntriesAppend(a: seq<Event>, b: seq<Event>)
    requires forall i :: 0 <= i < |a| ==> ResearchEntry(a[i])
    requires forall i :: 0 <= i < |b| ==> ResearchEntry(b[i])
    ensures forall i :: 0 <= i < |a + b| ==> ResearchEntry((a + b)[i])
  {
    forall i | 0 <= i < |a + b|
      ensures ResearchEntry((a + b)[i])
    {
      if i < |a| {
        assert (a + b)[i] == a[i];
      } else {
        assert (a + b)[i] == b[i - |a|];
      }
    }
  }

  /** The researcher's log holds only errors, keyword and competitor data, and log lines. */
  lemma ResearchLogEntries(kw: KeywordReply, serp: SerpReply, custom: CustomReply, top: seq<Competitor>, related: seq<string>)
    ensures var logs := Researcher.ResearchLog(kw, serp, custom, top, related);
      forall i :: 0 <= i < |logs| ==> ResearchEntry(logs[i])
  {
    var ke := Researcher.KeywordEvents(kw);
    var pe := Researcher.ProviderErrors(serp, custom);
    var tail := [CompetitorsData(top), Log(CompetitorsSummary(|top|, |related|))];
    assert forall i :: 0 <= i < |ke| ==> ResearchEntry(ke[i]);
    assert forall i :: 0 <= i < |pe| ==> ResearchEntry(pe[i]);
    assert forall i :: 0 <= i < |tail| ==> ResearchEntry(tail[i]);
    ResearchEntriesAppend(ke, pe);
    ResearchEntriesAppend(ke + pe, tail);
  }

  lemma ResearchLogsQuiet(kw: KeywordReply, serp: SerpReply, custom: CustomReply, maxCompetitors: nat)
    ensures var logs := Researcher.Research(kw, serp, custom, maxCompetitors).logs;
      forall i :: 0 <= i < |logs| ==> ResearchEntry(logs[i])
  {
    var top := Top(MergeReplies(serp, custom), maxCompetitors);
    ResearchLogEntries(kw, serp, custom, top, RelatedSearches(serp));
  }

  /** The LLM entries: the three statuses in order when some page was kept. */
  lemma LlmSteps(report: Report, parsed: ContentParser.ParsedContent)
    ensures var llm := LlmEvents(report, parsed);
      && StatusSteps(llm) == (if parsed.analyzedContent == [] then [] else [Analysis, Briefing, Evaluation])
      && forall i :: 0 <= i < |llm| ==> !llm[i].Complete?
  {
    var llm := LlmEvents(report, parsed);
    if parsed.analyzedContent != [] {
      assert llm == [llm[0]] + ([llm[1]] + ([llm[2]] + ([llm[3]] + ([llm[4]] + ([llm[5]] + [])))));
      StatusStepsCons(llm[5], []);
      StatusStepsCons(llm[4], [llm[5]] + []);
      StatusStepsCons(llm[3], [llm[4]] + ([llm[5]] + []));
      StatusStepsCons(llm[2], [llm[3]] + ([llm[4]] + ([llm[5]] + [])));
      StatusStepsCons(llm[1], [llm[2]] + ([llm[3]] + ([llm[4]] + ([llm[5]] + []))));
      StatusStepsCons(llm[0], [llm[1]] + ([llm[2]] + ([llm[3]] + ([llm[4]] + ([llm[5]] + [])))));
    }
  }

  /** An assembled stream reports the steps in pipeline order. */
  lemma StreamSteps(req: MissionRequest, research: Researcher.ResearchResult, parsed: ContentParser.ParsedContent, report: Report)
    requires forall i :: 0 <= i < |research.logs| ==> ResearchEntry(research.logs[i])
    requires forall i :: 0 <= i < |parsed.logs| ==> parsed.logs[i].Log?
    ensures StatusSteps(Stream(req, research, parsed, report)) ==
      [Init, Research, Parsing] + (if parsed.analyzedContent == [] then [] else [Analysis, Briefing, Evaluation])
  {
    var head := [Status(Init, StartMessage(req.topic)), Status(Research, ResearchMessage)];
    var parsing := [Status(Parsing, ParsingMessage(|research.competitors|))];
    var llm := LlmEvents(report, parsed);
    var a := head + research.logs;
    var b := a + parsing;
    var c := b + parsed.logs;
    var d := c + llm;
    assert Stream(req, research, parsed, report) == d + [Complete(report)];
    assert StatusSteps(a) == [Init, Research] by {
      assert head == [head[0]] + ([head[1]] + []);
      StatusStepsCons(head[1], []);
      StatusStepsCons(head[0], [head[1]] + []);
      NoStatusNoSteps(research.logs);
      StatusStepsAppend(head, research.logs);
    }
    assert StatusSteps(b) == [Init, Research, Parsing] by {
      StatusStepsCons(parsing[0], []);
      StatusStepsAppend(a, parsing);
    }
    assert StatusSteps(c) == [Init, Research, Parsing] by {
      NoStatusNoSteps(parsed.logs);
      StatusStepsAppend(b, parsed.logs);
    }
    assert StatusSteps(d) == [Init, Research, Parsing] + StatusSteps(llm) by {
      StatusStepsAppend(c, llm);
    }
    LlmSteps(report, parsed);
    StatusStepsCons(Complete(report), []);
    StatusStepsAppend(d, [Complete(report)]);
  }

  /** Only the last entry of an assembled stream is a completion. */
  lemma StreamCompletesOnce(req: MissionRequest, research: Researcher.ResearchResult, parsed: ContentParser.ParsedContent, report: Report)
    requires forall i :: 0 <= i < |research.logs| ==> ResearchEntry(research.logs[i])
    requires forall i :: 0 <= i < |parsed.logs| ==> parsed.logs[i].Log?
    ensures var events := Stream(req, research, parsed, report);
      forall i :: 0 <= i < |events| - 1 ==> !events[i].Complete?
  {
    var head := [Status(Init, StartMessage(req.topic)), Status(Research, ResearchMessage)];
    var parsing := [Status(Parsing, ParsingMessage(|research.competitors|))];
    var llm := LlmEvents(report, parsed);
    var a := head + research.logs;
    var b := a + parsing;
    var c := b + parsed.logs;
    var d := c + llm;
    var events := Stream(req, research, parsed, report);
    assert events == d + [Complete(report)];
    LlmSteps(report, parsed);
    forall i | 0 <= i < |events| - 1
      ensures !events[i].Complete?
    {
      assert events[i] == d[i];
      if i < |c| {
        assert d[i] == c[i];
        if i < |b| {
          assert c[i] == b[i];
          if i < |a| {
            assert b[i] == a[i];
            if i >= 2 {
              assert a[i] == research.logs[i - 2];
            }
          }
        } else {
          assert c[i] == parsed.logs[i - |b|];
        }
      } else {
        assert d[i] == llm[i - |c|];
      }
    }
  }

  /**
   * The stream opens with the mission start and the research status.  When
   * the research raised, that is all of it.  Otherwise it reports each
   * step's status once in pipeline order (analysis, briefing and
   * evaluation only when a page was kept) and ends with the single
   * completion event.
   */
  lemma MissionStream(req: MissionRequest, maxCompetitors: nat, s: Services)
    ensures var events := ExecuteMission(req, maxCompetitors, s);
      forall i :: 0 <= i < |events| - 1 ==> !events[i].Complete?
    ensures s.raised.Some? ==>
      ExecuteMission(req, maxCompetitors, s) == [Status(Init, StartMessage(req.topic)), Status(Research, ResearchMessage)]
    ensures s.raised.Some? ==> StatusSteps(ExecuteMission(req, maxCompetitors, s)) == [Init, Research]
    ensures s.raised.None? ==>
      var research := Researcher.Research(s.keywords, s.serp, s.custom, maxCompetitors);
      var parsed := ContentParser.Parse(research.competitors, s.parse);
      StatusSteps(ExecuteMission(req, maxCompetitors, s)) ==
        [Init, Research, Parsing] + (if parsed.competitorsWithContent == [] then [] else [Analysis, Briefing, Evaluation])
  {
    if s.raised.Some? {
      OpeningSteps(req.topic);
    } else {
      CompletedStream(req, maxCompetitors, s);
    }
  }

  /** The two opening statuses report the initialisation and research steps. */
  lemma OpeningSteps(topic: string)
    ensures StatusSteps([Status(Init, StartMessage(topic)), Status(Research, ResearchMessage)]) == [Init, Research]
  {
    var e0, e1 := Status(Init, StartMessage(topic)), Status(Research, ResearchMessage);
    assert [e0, e1] == [e0] + ([e1] + []);
    StatusStepsCons(e1, []);
    StatusStepsCons(e0, [e1] + []);
  }

  lemma CompletedStream(req: MissionRequest, maxCompetitors: nat, s: Services)
    requires s.raised.None?
    ensures var events := ExecuteMission(req, maxCompetitors, s);
      var research := Researcher.Research(s.keywords, s.serp, s.custom, maxCompetitors);
      var parsed := ContentParser.Parse(research.competitors, s.parse);
      && (forall i :: 0 <= i < |events| - 1 ==> !events[i].Complete?)
      && StatusSteps(events) ==
           [Init, Research, Parsing] + (if parsed.competitorsWithContent == [] then [] else [Analysis, Briefing, Evaluation])
  {
    var research := Researcher.Research(s.keywords, s.serp, s.custom, maxCompetitors);
    var parsed := ContentParser.Parse(research.competitors, s.parse);
    var report := FinalReport(req, s, research, parsed);
    ResearchLogsQuiet(s.keywords, s.serp, s.custom, maxCompetitors);
    StreamSteps(req, research, parsed, report);
    StreamCompletesOnce(req, research, parsed, report);
  }

  /** An assembled stream is its opening, the LLM entries and the completion. */
  lemma StreamShape(req: MissionRequest, research: Researcher.ResearchResult, parsed: ContentParser.ParsedContent, report: Report)
    ensures Stream(req, research, parsed, report) ==
      ([Status(Init, StartMessage(req.topic)), Status(Research, ResearchMessage)] + research.logs
       + [Status(Parsing, ParsingMessage(|research.competitors|))] + parsed.logs)
      + LlmEvents(report, parsed) + [Complete(report)]
  {
  }

  /** The segments of an assembled stream. */
  lemma StreamSegments(req: MissionRequest, research: Researcher.ResearchResult, parsed: ContentParser.ParsedContent, report: Report)
    ensures var events := Stream(req, research, parsed, report);
      var n := |research.logs|;
      && |events| == 4 + n + |parsed.logs| + |LlmEvents(report, parsed)|
      && (forall i :: 0 <= i < n ==> events[2 + i] == research.logs[i])
      && events[2 + n] == Status(Parsing, ParsingMessage(|research.competitors|))
      && (forall i :: 0 <= i < |parsed.logs| ==> events[3 + n + i] == parsed.logs[i])
  {
    var head := [Status(Init, StartMessage(req.topic)), Status(Research, ResearchMessage)];
    var parsing := [Status(Parsing, ParsingMessage(|research.competitors|))];
    var a := head + research.logs;
    var b := a + parsing;
    var c := b + parsed.logs;
    var events := Stream(req, research, parsed, report);
    var d := c + LlmEvents(report, parsed);
    assert events == d + [Complete(report)];
    forall i | 0 <= i < |research.logs|
      ensures events[2 + i] == research.logs[i]
    {
      assert events[2 + i] == d[2 + i] == c[2 + i] == b[2 + i] == a[2 + i];
    }
    assert events[2 + |research.logs|] == d[|a|] == c[|a|] == b[|a|];
    forall i | 0 <= i < |parsed.logs|
      ensures events[3 + |research.logs| + i] == parsed.logs[i]
    {
      assert events[|b| + i] == d[|b| + i] == c[|b| + i];
    }
  }

  /** What the final report holds, for any step results. */
  lemma FinalReportFields(req: MissionRequest, s: Services, research: Researcher.ResearchResult, parsed: ContentParser.ParsedContent)
    requires |parsed.analyzedContent| == |parsed.competitorsWithContent|
    ensures var report := FinalReport(req, s, research, parsed);
      var events := Stream(req, research, parsed, report);
      && report.request == req
      && report.keywordData == research.keywordData
      && report.relatedSearches == research.relatedSearches
      && report.competitors == parsed.competitorsWithContent
      && (report.competitors == [] ==>
            && report.semanticAnalysis == NoAnalysis && report.briefing == "" && report.evaluation == ""
            && LlmEvents(report, parsed) == [])
      && (report.competitors != [] ==>
            && report.semanticAnalysis == s.analyze(parsed.analyzedContent, ContextKeyword(req, report.relatedSearches), req.language)
            && report.briefing == s.brief(report.(briefing := "", evaluation := ""), req.language)
            && report.evaluation == s.evaluate(report.briefing, report.(evaluation := "")))
  {
  }

  /** Entries outside the research, parsing and LLM segments are statuses or the completion. */
  lemma NoLlmData(req: MissionRequest, research: Researcher.ResearchResult, parsed: ContentParser.ParsedContent, report: Report)
    requires forall i :: 0 <= i < |research.logs| ==> ResearchEntry(research.logs[i])
    requires forall i :: 0 <= i < |parsed.logs| ==> parsed.logs[i].Log?
    requires LlmEvents(report, parsed) == []
    ensures var events := Stream(req, research, parsed, report);
      forall i :: 0 <= i < |events| ==> !events[i].AnalysisData? && !events[i].BriefingData? && !events[i].EvaluationData?
  {
    var events := Stream(req, research, parsed, report);
    var n := |research.logs|;
    forall i | 0 <= i < |events|
      ensures !events[i].AnalysisData? && !events[i].BriefingData? && !events[i].EvaluationData?
    {
      if 2 <= i < 2 + n {
        assert events[i] == research.logs[i - 2];
      } else if 3 + n <= i < 3 + n + |parsed.logs| {
        assert events[i] == parsed.logs[i - 3 - n];
      }
    }
  }

  /**
   * The completed report: the request, the keyword result, the related
   * searches, and the competitors whose pages were kept; without a kept
   * page the LLM steps do not run and their fields keep their initial
   * values, otherwise each step sees the report as the previous steps left
   * it.  A mission whose research raised completes with no report.
   */
  lemma MissionReport(req: MissionRequest, maxCompetitors: nat, s: Services)
    ensures Outcome(req, maxCompetitors, s).None? <==> s.raised.Some?
    ensures s.raised.None? ==>
      var report := Outcome(req, maxCompetitors, s).value;
      var research := Researcher.Research(s.keywords, s.serp, s.custom, maxCompetitors);
      var parsed := ContentParser.Parse(research.competitors, s.parse);
      var events := ExecuteMission(req, maxCompetitors, s);
      && report.request == req
      && report.keywordData == s.keywords
      && report.relatedSearches == RelatedSearches(s.serp)
      && report.competitors == parsed.competitorsWithContent
      && (report.competitors == [] ==>
            && report.semanticAnalysis == NoAnalysis && report.briefing == "" && report.evaluation == ""
            && forall i :: 0 <= i < |events| ==> !events[i].AnalysisData? && !events[i].BriefingData? && !events[i].EvaluationData?)
      && (report.competitors != [] ==>
            && report.semanticAnalysis == s.analyze(parsed.analyzedContent, ContextKeyword(req, report.relatedSearches), req.language)
            && report.briefing == s.brief(report.(briefing := "", evaluation := ""), req.language)
            && report.evaluation == s.evaluate(report.briefing, report.(evaluation := "")))
  {
    if s.raised.None? {
      var research := Researcher.Research(s.keywords, s.serp, s.custom, maxCompetitors);
      var parsed := ContentParser.Parse(research.competitors, s.parse);
      var report := FinalReport(req, s, research, parsed);
      FinalReportFields(req, s, research, parsed);
      ResearchLogsQuiet(s.keywords, s.serp, s.custom, maxCompetitors);
      if report.competitors == [] {
        NoLlmData(req, research, parsed, report);
      }
    }
  }
}
