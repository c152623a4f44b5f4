/**
 * `ContentParser.parse`: every competitor URL handed to the page parser
 * (an oracle standing for the Jina Reader call, answered per URL in list
 * order as `asyncio.gather` returns them), then the results filtered by
 * `ContentFilter.Filter` and its log lines emitted as log events.
 */
module ContentParser {
  import opened Competitors
  import opened JinaReader
  import opened Events
  import opened ContentFilter

  datatype ParsedContent = ParsedContent(
    analyzedContent: seq<ParseResult>,
    competitorsWithContent: seq<KeptCompetitor>,
    logs: seq<Event>)

  /** The parser's outcome for each URL, aligned with the list. */
  function Outcomes(urls: seq<Competitor>, parse: string -> ParseOutcome): (os: seq<ParseOutcome>)
    ensures |os| == |urls|
    ensures forall i :: 0 <= i < |urls| ==> os[i] == parse(urls[i].link)
  {
    seq(|urls|, i requires 0 <= i < |urls| => parse(urls[i].link))
  }

  function Parse(urls: seq<Competitor>, parse: string -> ParseOutcome): (r: ParsedContent)
    ensures |r.logs| == |urls|
    ensures |r.analyzedContent| == |r.competitorsWithContent| <= |urls|
    ensures forall i :: 0 <= i < |r.logs| ==> r.logs[i].Log? && IsParseLog(r.logs[i].line)
  {
    var f := Filter(urls, Outcomes(urls, parse));
    FilterLogs(urls, Outcomes(urls, parse));
    ParsedContent(f.analyzed, f.kept, LogEvents(f.logs))
  }

  /**
   * Log entry `i` is about URL `i`: `[FAIL]` with the exception text when
   * the parser raised, `[OK]` with the word count when the page is kept,
   * `[SKIP]` otherwise.
   */
  lemma ParseLogs(urls: seq<Competitor>, parse: string -> ParseOutcome)
    ensures var r := Parse(urls, parse);
      forall i :: 0 <= i < |urls| ==>
        var o := parse(urls[i].link);
        var l := r.logs[i].line;
        && l.url == urls[i].link
        && (l.ParseFail? <==> o.Raised?)
        && (l.ParseOk? <==> Keeps(o))
        && (l.ParseFail? ==> l.reason == o.reason)
        && (l.ParseOk? ==> l.words == WordCountOf(o.result))
  {
    FilterLogs(urls, Outcomes(urls, parse));
  }

  /**
   * The kept lists hold exactly the pages with more than fifty words, in
   * URL order: entry `j` comes from URL `KeptIndices(..)[j]`, and every
   * URL whose page is kept is among those indices.
   */
  lemma ParseKeeps(urls: seq<Competitor>, parse: string -> ParseOutcome)
    ensures var r := Parse(urls, parse);
      var os := Outcomes(urls, parse);
      var ks := KeptIndices(os);
      && |r.competitorsWithContent| == |ks|
      && (forall j :: 0 <= j < |ks| ==> ks[j] < |urls| && Keeps(parse(urls[ks[j]].link)))
      && (forall j :: 0 <= j < |ks| ==> r.analyzedContent[j] == parse(urls[ks[j]].link).result)
      && (forall j :: 0 <= j < |ks| ==> r.competitorsWithContent[j] == KeptOf(urls[ks[j]], parse(urls[ks[j]].link)))
      && (forall j :: 0 <= j < |ks| ==> r.competitorsWithContent[j].wordCount > MinWords)
      && (forall i :: 0 <= i < |urls| && Keeps(parse(urls[i].link)) ==> i in ks)
  {
    var os := Outcomes(urls, parse);
    FilterKeepsIndices(urls, os);
    forall i | 0 <= i < |urls| && Keeps(parse(urls[i].link))
      ensures i in KeptIndices(os)
    {
      KeptIndicesComplete(os, i);
    }
  }
}
