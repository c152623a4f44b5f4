/**
 * The classification of the reader's results, shared by the mission and
 * `ContentParser.parse`: one log line per URL, and the pages with more than
 * fifty words kept together with their competitor records, in submission
 * order.
 */
module ContentFilter {
  import opened Wrappers
  import opened Competitors
  import opened JinaReader
  import opened Events

  /** A page needs more than this many words to be kept. */
  const MinWords: nat := 50

  /** `res.get("word_count", 0)`: an error record has no word count. */
  function WordCountOf(r: ParseResult): nat {
    if r.Parsed? then r.page.wordCount else 0
  }

  /** The result is kept: not an exception, and `word_count > 50`. */
  predicate Keeps(o: ParseOutcome) {
    o.Returned? && WordCountOf(o.result) > MinWords
  }

  predicate IsParseLog(l: LogLine) {
    l.ParseFail? || l.ParseOk? || l.ParseSkip?
  }

  function LogFor(c: Competitor, o: ParseOutcome): LogLine {
    if o.Raised? then ParseFail(c.link, o.reason)
    else if Keeps(o) then ParseOk(c.link, WordCountOf(o.result))
    else ParseSkip(c.link)
  }

  /** The `report["competitors"]` entry: title, link and source from the competitor, the count from the page. */
  function KeptOf(c: Competitor, o: ParseOutcome): KeptCompetitor {
    KeptCompetitor(c.title, c.link, if o.Returned? then WordCountOf(o.result) else 0, c.source)
  }

  /** `analyzed_content`, the kept competitors and the log lines, in order. */
  datatype Filtered = Filtered(analyzed: seq<ParseResult>, kept: seq<KeptCompetitor>, logs: seq<LogLine>)

  /** The loop over `enumerate(parsed_results)`; `outcomes[i]` is the result for `comps[i]`. */
  function Filter(comps: seq<Competitor>, outcomes: seq<ParseOutcome>): (f: Filtered)
    requires |comps| == |outcomes|
    ensures |f.logs| == |comps|
    ensures |f.analyzed| == |f.kept| <= |comps|
    decreases |comps|
  {
    if |comps| == 0 then Filtered([], [], [])
    else
      var n := |comps| - 1;
      var f := Filter(comps[..n], outcomes[..n]);
      var c, o := comps[n], outcomes[n];
      var logs := f.logs + [LogFor(c, o)];
      if Keeps(o) then Filtered(f.analyzed + [o.result], f.kept + [KeptOf(c, o)], logs)
      else Filtered(f.analyzed, f.kept, logs)
  }

  /**
   * One log line per input, in input order: `[FAIL]` with the exception's
   * text exactly for an exception, `[OK]` with the word count exactly for a
   * kept result, `[SKIP]` otherwise.
   */
  predicate LogsDescribe(comps: seq<Competitor>, outcomes: seq<ParseOutcome>, logs: seq<LogLine>)
    requires |comps| == |outcomes| == |logs|
  {
    && (forall i :: 0 <= i < |comps| ==> IsParseLog(logs[i]) && logs[i].url == comps[i].link)
    && (forall i :: 0 <= i < |comps| ==> (logs[i].ParseFail? <==> outcomes[i].Raised?))
    && (forall i :: 0 <= i < |comps| ==> (logs[i].ParseOk? <==> Keeps(outcomes[i])))
    && (forall i :: 0 <= i < |comps| && logs[i].ParseFail? ==> logs[i].reason == outcomes[i].reason)
    && (forall i :: 0 <= i < |comps| && logs[i].ParseOk? ==> logs[i].words == WordCountOf(outcomes[i].result))
  }

  /** Logging one more result keeps the log lines describing the inputs. */
  lemma LogsDescribeSnoc(cs: seq<Competitor>, os: seq<ParseOutcome>, logs0: seq<LogLine>, c: Competitor, o: ParseOutcome)
    requires |cs| == |os| == |logs0| && LogsDescribe(cs, os, logs0)
    ensures LogsDescribe(cs + [c], os + [o], logs0 + [LogFor(c, o)])
  {
    var n := |cs|;
    assert forall i :: 0 <= i < n ==> (logs0 + [LogFor(c, o)])[i] == logs0[i] && (cs + [c])[i] == cs[i] && (os + [o])[i] == os[i];
  }

  lemma {:induction false} FilterLogs(comps: seq<Competitor>, outcomes: seq<ParseOutcome>)
    requires |comps| == |outcomes|
    ensures LogsDescribe(comps, outcomes, Filter(comps, outcomes).logs)
    decreases |comps|
  {
    if |comps| > 0 {
      var n := |comps| - 1;
      var cs, os := comps[..n], outcomes[..n];
      FilterLogs(cs, os);
      assert comps == cs + [comps[n]] && outcomes == os + [outcomes[n]];
      LogsDescribeSnoc(cs, os, Filter(cs, os).logs, comps[n], outcomes[n]);
    }
  }

  /** The indices of the kept results, in increasing order. */
  function KeptIndices(outcomes: seq<ParseOutcome>): (ks: seq<nat>)
    ensures forall j :: 0 <= j < |ks| ==> ks[j] < |outcomes| && Keeps(outcomes[ks[j]])
    ensures forall i, j :: 0 <= i < j < |ks| ==> ks[i] < ks[j]
    decreases |outcomes|
  {
    if |outcomes| == 0 then []
    else
      var n := |outcomes| - 1;
      var ks := KeptIndices(outcomes[..n]);
      assert forall i :: 0 <= i < n ==> outcomes[..n][i] == outcomes[i];
      if Keeps(outcomes[n]) then ks + [n] else ks
  }

  /** Every kept result's index is listed. */
  lemma {:induction false} KeptIndicesComplete(outcomes: seq<ParseOutcome>, i: nat)
    requires i < |outcomes| && Keeps(outcomes[i])
    ensures i in KeptIndices(outcomes)
    decreases |outcomes|
  {
    var n := |outcomes| - 1;
    if i < n {
      KeptIndicesComplete(outcomes[..n], i);
    }
  }

  /** The kept lists grow by the last input exactly when it is kept. */
  lemma FilterStep(comps: seq<Competitor>, outcomes: seq<ParseOutcome>)
    requires |comps| == |outcomes| > 0
    ensures var n := |comps| - 1;
      var f0 := Filter(comps[..n], outcomes[..n]);
      var f := Filter(comps, outcomes);
      var ks0 := KeptIndices(outcomes[..n]);
      var ks := KeptIndices(outcomes);
      if Keeps(outcomes[n]) then
        f.analyzed == f0.analyzed + [outcomes[n].result] && f.kept == f0.kept + [KeptOf(comps[n], outcomes[n])] && ks == ks0 + [n]
      else
        f.analyzed == f0.analyzed && f.kept == f0.kept && ks == ks0
  {
  }

  /**
   * Entry `j` of `analyzed` and of `kept` both come from input `ks[j]`: the
   * competitor record from the input competitor, the word count from its page.
   */
  predicate KeptFrom(comps: seq<Competitor>, outcomes: seq<ParseOutcome>, analyzed: seq<ParseResult>, kept: seq<KeptCompetitor>, ks: seq<nat>)
    requires |comps| == |outcomes|
  {
    && |analyzed| == |kept| == |ks|
    && (forall j :: 0 <= j < |ks| ==> ks[j] < |comps| && Keeps(outcomes[ks[j]]))
    && (forall j :: 0 <= j < |ks| ==> analyzed[j] == outcomes[ks[j]].result)
    && (forall j :: 0 <= j < |ks| ==> kept[j] == KeptOf(comps[ks[j]], outcomes[ks[j]]))
  }

  /** Classifying one more result keeps every kept entry tied to its input. */
  lemma KeptFromSnoc(cs: seq<Competitor>, os: seq<ParseOutcome>, a0: seq<ParseResult>, k0: seq<KeptCompetitor>, ks0: seq<nat>,
                     c: Competitor, o: ParseOutcome)
    requires |cs| == |os| && KeptFrom(cs, os, a0, k0, ks0)
    ensures Keeps(o) ==> KeptFrom(cs + [c], os + [o], a0 + [o.result], k0 + [KeptOf(c, o)], ks0 + [|cs|])
    ensures KeptFrom(cs + [c], os + [o], a0, k0, ks0)
  {
    var n := |cs|;
    forall j | 0 <= j < |ks0|
      ensures (cs + [c])[ks0[j]] == cs[ks0[j]] && (os + [o])[ks0[j]] == os[ks0[j]]
    {
    }
    if Keeps(o) {
      var ks := ks0 + [n];
      assert forall j :: 0 <= j < |ks0| ==> ks[j] == ks0[j];
      assert (cs + [c])[n] == c && (os + [o])[n] == o;
    }
  }

  /** The kept lists are exactly the results at the kept indices. */
  lemma {:induction false} FilterKeepsIndices(comps: seq<Competitor>, outcomes: seq<ParseOutcome>)
    requires |comps| == |outcomes|
    ensures var f := Filter(comps, outcomes);
      KeptFrom(comps, outcomes, f.analyzed, f.kept, KeptIndices(outcomes))
    decreases |comps|
  {
    if |comps| > 0 {
      var n := |comps| - 1;
      var cs, os := comps[..n], outcomes[..n];
      FilterKeepsIndices(cs, os);
      FilterStep(comps, outcomes);
      var f0 := Filter(cs, os);
      assert comps == cs + [comps[n]] && outcomes == os + [outcomes[n]];
      KeptFromSnoc(cs, os, f0.analyzed, f0.kept, KeptIndices(os), comps[n], outcomes[n]);
    }
  }

  /** The links of the kept competitors are an order-preserving subsequence of the input links. */
  lemma KeptLinksInOrder(comps: seq<Competitor>, outcomes: seq<ParseOutcome>)
    requires |comps| == |outcomes|
    ensures var f := Filter(comps, outcomes);
      var ks := KeptIndices(outcomes);
      && |f.kept| == |ks|
      && (forall j :: 0 <= j < |ks| ==> f.kept[j].link == comps[ks[j]].link)
      && (forall i, j :: 0 <= i < j < |ks| ==> ks[i] < ks[j])
  {
    FilterKeepsIndices(comps, outcomes);
  }

  /**
   * A JSON reply of the wrong shape makes `parse` raise: the URL is logged
   * as a failure with the `AttributeError` message and never kept.
   */
  lemma MisshapenReplyFails(c: Competitor, reply: ReaderReply)
    requires reply.JsonNotObject? || (reply.JsonBody? && reply.data.DataOther?)
    ensures var o := Parse(c.link, reply);
      && !Keeps(o)
      && LogFor(c, o) == ParseFail(c.link, NoGet(if reply.JsonNotObject? then reply.typeName else reply.data.typeName))
  {
  }

  /** Fifty words are not enough, fifty-one are. */
  lemma KeepBoundary(url: string, title: string)
    ensures !Keeps(Returned(Parsed(Page(url, title, 50, ""))))
    ensures Keeps(Returned(Parsed(Page(url, title, 51, ""))))
    ensures !Keeps(Returned(ParseError("timeout")))
    ensures !Keeps(Raised("boom"))
  {
  }
}
