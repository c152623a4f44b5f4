/**
 * Post-processing of a keyword-ideas response (`GoogleAdsClient._process_results`)
 * and the customer-id clean-up done before the request. The remote
 * KeywordPlanIdeaService call itself is an input: its response is the
 * sequence of `IdeaRow`s.
 */
module GoogleAds {
  import opened Wrappers
  import opened Text
  import opened Ranking

  /** KeywordPlanCompetitionLevel. `Unspecified` is the enum's zero value, which Python treats as false. */
  datatype CompetitionLevel = Unspecified | Unknown | Low | Medium | High

  function LevelName(c: CompetitionLevel): string {
    match c
    case Unspecified => "UNSPECIFIED"
    case Unknown => "UNKNOWN"
    case Low => "LOW"
    case Medium => "MEDIUM"
    case High => "HIGH"
  }

  /**
   * One keyword idea of the response: its text, `avg_monthly_searches`
   * (`None` for a null value) and the competition level, `None` when absent.
   */
  datatype IdeaRow = IdeaRow(text: string, avgMonthlySearches: Option<int>, competition: Option<CompetitionLevel>)

  /** The `{"keyword", "avg_searches", "competition"}` record built per idea. */
  datatype KeywordItem = KeywordItem(keyword: string, avgSearches: Option<int>, competition: string)

  /** The dictionary `_process_results` returns. */
  datatype KeywordIdeas = KeywordIdeas(mainKeyword: Option<KeywordItem>, relatedKeywords: seq<KeywordItem>, proofKeywords: seq<string>)

  const RelatedLimit: nat := 10
  const ProofLimit: nat := 8

  function ItemOf(row: IdeaRow): KeywordItem {
    var competition :=
      if row.competition.Some? && row.competition.value != Unspecified then LevelName(row.competition.value)
      else "UNKNOWN";
    KeywordItem(row.text, row.avgMonthlySearches, competition)
  }

  /** `text.lower() == seed_keyword.lower()`. */
  predicate MatchesSeed(text: string, seed: string) {
    Lower(text) == Lower(seed)
  }

  // ---------------------------------------------------------------------
  // main keyword and related keywords

  /** The loop keeps overwriting `main_keyword_data`, so the last matching row wins. */
  function MainKeyword(rows: seq<IdeaRow>, seed: string): Option<KeywordItem>
    decreases |rows|
  {
    if |rows| == 0 then None
    else if MatchesSeed(rows[|rows| - 1].text, seed) then Some(ItemOf(rows[|rows| - 1]))
    else MainKeyword(rows[..|rows| - 1], seed)
  }

  /** The items of the rows that do not match the seed, in response order. */
  function NonSeedItems(rows: seq<IdeaRow>, seed: string): (items: seq<KeywordItem>)
    ensures |items| <= |rows|
    ensures forall k :: 0 <= k < |items| ==> !MatchesSeed(items[k].keyword, seed)
    decreases |rows|
  {
    if |rows| == 0 then []
    else (if MatchesSeed(rows[0].text, seed) then [] else [ItemOf(rows[0])]) + NonSeedItems(rows[1..], seed)
  }

  /** The sort key `x["avg_searches"] or 0`. */
  function SearchKey(item: KeywordItem): int {
    item.avgSearches.GetOr(0)
  }

  function RankedRelated(rows: seq<IdeaRow>, seed: string): seq<Ranked<KeywordItem>> {
    SortDesc(NonSeedItems(rows, seed), SearchKey)
  }

  // ---------------------------------------------------------------------
  // proof words

  predicate IsStripped(c: char) {
    c == '.' || c == ',' || c == '!' || c == '?'
  }

  /** `word.lower().strip(".,!?")`. */
  function CleanWord(w: string): string {
    Strip(Lower(w), IsStripped)
  }

  /** A cleaned word is counted when it is longer than 3 and not a substring of the lower-cased seed. */
  predicate IsProofWord(w: string, seed: string) {
    |w| > 3 && !Contains(Lower(seed), w)
  }

  /** The cleaned form of every word, in order. */
  function CleanWords(words: seq<string>): (cs: seq<string>)
    ensures |cs| == |words|
    ensures forall k :: 0 <= k < |words| ==> cs[k] == CleanWord(words[k])
  {
    seq(|words|, k requires 0 <= k < |words| => CleanWord(words[k]))
  }

  /** The cleaned words that are counted, in order. */
  function KeepProofWords(cs: seq<string>, seed: string): (r: seq<string>)
    ensures forall k :: 0 <= k < |r| ==> IsProofWord(r[k], seed)
    decreases |cs|
  {
    if |cs| == 0 then []
    else (if IsProofWord(cs[0], seed) then [cs[0]] else []) + KeepProofWords(cs[1..], seed)
  }

  /** The counted cleaned words of one idea text, in order. */
  function TextProofWords(text: string, seed: string): seq<string> {
    KeepProofWords(CleanWords(Words(text)), seed)
  }

  /** Every counted word occurrence of the response, in order: every row contributes, the main keyword's row included. */
  function ProofCandidates(rows: seq<IdeaRow>, seed: string): (r: seq<string>)
    ensures forall k :: 0 <= k < |r| ==> IsProofWord(r[k], seed)
    decreases |rows|
  {
    if |rows| == 0 then []
    else TextProofWords(rows[0].text, seed) + ProofCandidates(rows[1..], seed)
  }

  /** An entry of the `word_counts` dictionary. */
  datatype WordCount = WordCount(word: string, count: nat)

  function WordsOf(t: seq<WordCount>): (ws: seq<string>)
    ensures |ws| == |t|
    ensures forall i :: 0 <= i < |t| ==> ws[i] == t[i].word
  {
    seq(|t|, i requires 0 <= i < |t| => t[i].word)
  }

  /** Index of the first occurrence of `w` in `ws`, or `|ws|`. */
  function FirstIndex(ws: seq<string>, w: string): (k: nat)
    ensures k <= |ws|
    ensures k < |ws| <==> w in ws
    ensures k < |ws| ==> ws[k] == w
    ensures forall j :: 0 <= j < k ==> ws[j] != w
    decreases |ws|
  {
    if |ws| == 0 then 0 else if ws[0] == w then 0 else 1 + FirstIndex(ws[1..], w)
  }

  function Occurrences(ws: seq<string>, w: string): nat {
    multiset(ws)[w]
  }

  predicate DistinctWords(t: seq<WordCount>) {
    forall i, j :: 0 <= i < j < |t| ==> t[i].word != t[j].word
  }

  /** `word_counts[w] = word_counts.get(w, 0) + 1` on an insertion-ordered dictionary. */
  function Bump(t: seq<WordCount>, w: string): (r: seq<WordCount>)
    requires DistinctWords(t)
    ensures DistinctWords(r)
    ensures |r| == |t| + (if w in WordsOf(t) then 0 else 1)
    ensures forall i :: 0 <= i < |t| ==> r[i].word == t[i].word
    ensures forall i :: 0 <= i < |t| ==> r[i].count == t[i].count + (if t[i].word == w then 1 else 0)
    ensures w !in WordsOf(t) ==> r[|t|] == WordCount(w, 1)
    decreases |t|
  {
    if |t| == 0 then [WordCount(w, 1)]
    else if t[0].word == w then [WordCount(w, t[0].count + 1)] + t[1..]
    else
      var rest := Bump(t[1..], w);
      assert WordsOf(t) == [t[0].word] + WordsOf(t[1..]);
      assert forall i :: 0 <= i < |rest| ==> rest[i].word != t[0].word by {
        forall i | 0 <= i < |rest|
          ensures rest[i].word != t[0].word
        {
          if i < |t| - 1 {
            assert rest[i].word == t[i + 1].word;
          }
        }
      }
      [t[0]] + rest
  }

  /** The `word_counts` dictionary after counting `ws` left to right. */
  function Tally(ws: seq<string>): (t: seq<WordCount>)
    ensures DistinctWords(t)
    decreases |ws|
  {
    if |ws| == 0 then [] else Bump(Tally(ws[..|ws| - 1]), ws[|ws| - 1])
  }

  function CountKey(e: WordCount): int {
    e.count
  }

  /** The words of the first 8 entries of `sorted(word_counts.items(), key=count, reverse=True)`. */
  function TopWords(ws: seq<string>): seq<string> {
    var ranked := RankedWords(ws);
    ranked[..Min(|ranked|, ProofLimit)]
  }

  /** The words of `sorted(word_counts.items(), key=count, reverse=True)`. */
  function RankedWords(ws: seq<string>): seq<string> {
    WordsOf(Values(SortDesc(Tally(ws), CountKey)))
  }

  function ProofKeywords(rows: seq<IdeaRow>, seed: string): seq<string> {
    TopWords(ProofCandidates(rows, seed))
  }

  /** `_process_results(response, seed_keyword)`. */
  function ProcessResults(rows: seq<IdeaRow>, seed: string): (r: KeywordIdeas)
    ensures |r.relatedKeywords| <= RelatedLimit && |r.proofKeywords| <= ProofLimit
    ensures forall k :: 0 <= k < |r.relatedKeywords| ==> !MatchesSeed(r.relatedKeywords[k].keyword, seed)
    ensures r.mainKeyword.Some? ==> MatchesSeed(r.mainKeyword.value.keyword, seed)
  {
    var ranked := RankedRelated(rows, seed);
    var related := Values(ranked[..Min(|ranked|, RelatedLimit)]);
    assert forall k :: 0 <= k < |related| ==> ranked[k].value in NonSeedItems(rows, seed) by {
      SortDescFacts(NonSeedItems(rows, seed), SearchKey, 0);
    }
    MainKeywordMatches(rows, seed);
    KeywordIdeas(MainKeyword(rows, seed), related, ProofKeywords(rows, seed))
  }

  lemma {:induction false} MainKeywordMatches(rows: seq<IdeaRow>, seed: string)
    ensures MainKeyword(rows, seed).Some? ==> MatchesSeed(MainKeyword(rows, seed).value.keyword, seed)
    decreases |rows|
  {
    if |rows| > 0 && !MatchesSeed(rows[|rows| - 1].text, seed) {
      MainKeywordMatches(rows[..|rows| - 1], seed);
    }
  }

  // ---------------------------------------------------------------------
  // customer id

  /** `customer_id.replace("-", "")`. */
  function StripHyphens(id: string): (r: string)
    ensures '-' !in r
    ensures multiset(r) == multiset(id)['-' := 0]
    decreases |id|
  {
    if |id| == 0 then ""
    else
      assert id == [id[0]] + id[1..];
      (if id[0] == '-' then "" else [id[0]]) + StripHyphens(id[1..])
  }
  /** The KeywordPlanIdeaService answer: a GoogleAdsException's first error message, or the ideas. */
  datatype ServiceReply = ServiceFailed(message: string) | ServiceRows(rows: seq<IdeaRow>)

  /** What `get_keyword_ideas` returns: `{"error": msg}` or the processed ideas. */
  datatype KeywordReply = KeywordsFailed(message: string) | KeywordsReady(ideas: KeywordIdeas)

  /** `get_keyword_ideas(keyword)` given the service's answer to the request. */
  function GetKeywordIdeas(seed: string, reply: ServiceReply): (r: KeywordReply)
    ensures r.KeywordsFailed? <==> reply.ServiceFailed?
    ensures reply.ServiceFailed? ==> r.message == reply.message
    ensures r.KeywordsReady? ==> |r.ideas.relatedKeywords| <= RelatedLimit && |r.ideas.proofKeywords| <= ProofLimit
  {
    match reply
    case ServiceFailed(message) => KeywordsFailed(message)
    case ServiceRows(rows) => KeywordsReady(ProcessResults(rows, seed))
  }

}

module GoogleAdsProofs {
  import opened Wrappers
  import opened Text
  import opened Ranking
  import opened GoogleAds

  /** Row `j` matches the seed and no later row does. */
  predicate IsLastMatch(rows: seq<IdeaRow>, seed: string, j: int) {
    0 <= j < |rows| && MatchesSeed(rows[j].text, seed)
    && forall j' :: j < j' < |rows| ==> !MatchesSeed(rows[j'].text, seed)
  }

  /** `main_keyword` is the item of the last row matching the seed, and absent exactly when no row matches. */
  lemma {:induction false} MainKeywordIsLastMatch(rows: seq<IdeaRow>, seed: string)
    ensures MainKeyword(rows, seed).None? <==> forall j :: 0 <= j < |rows| ==> !MatchesSeed(rows[j].text, seed)
    ensures MainKeyword(rows, seed).Some? ==>
      exists j :: IsLastMatch(rows, seed, j) && MainKeyword(rows, seed).value == ItemOf(rows[j])
    decreases |rows|
  {
    if |rows| > 0 {
      var n := |rows| - 1;
      var pre := rows[..n];
      if MatchesSeed(rows[n].text, seed) {
        assert MainKeyword(rows, seed) == Some(ItemOf(rows[n]));
        assert IsLastMatch(rows, seed, n);
      } else {
        assert MainKeyword(rows, seed) == MainKeyword(pre, seed);
        MainKeywordIsLastMatch(pre, seed);
        LastMatchExtend(pre, rows, seed, MainKeyword(pre, seed));
      }
    }
  }

  /** A last match of `pre` stays one after appending a row that does not match. */
  lemma LastMatchExtend(pre: seq<IdeaRow>, rows: seq<IdeaRow>, seed: string, m: Option<KeywordItem>)
    requires |rows| == |pre| + 1 && pre == rows[..|pre|] && !MatchesSeed(rows[|pre|].text, seed)
    requires m.None? <==> forall j :: 0 <= j < |pre| ==> !MatchesSeed(pre[j].text, seed)
    requires m.Some? ==> exists j :: IsLastMatch(pre, seed, j) && m.value == ItemOf(pre[j])
    ensures m.None? <==> forall j :: 0 <= j < |rows| ==> !MatchesSeed(rows[j].text, seed)
    ensures m.Some? ==> exists j :: IsLastMatch(rows, seed, j) && m.value == ItemOf(rows[j])
  {
    if m.Some? {
      var j :| IsLastMatch(pre, seed, j) && m.value == ItemOf(pre[j]);
      assert rows[j] == pre[j];
      forall j' | j < j' < |rows|
        ensures !MatchesSeed(rows[j'].text, seed)
      {
        if j' < |pre| {
          assert rows[j'] == pre[j'] && !MatchesSeed(pre[j'].text, seed);
        } else {
          assert j' == |pre|;
        }
      }
      assert IsLastMatch(rows, seed, j);
    } else {
      forall j | 0 <= j < |rows|
        ensures !MatchesSeed(rows[j].text, seed)
      {
        if j < |pre| {
          assert rows[j] == pre[j];
        }
      }
    }
  }

  /**
   * `related_keywords` are the non-seed items ranked by search volume (null
   * read as 0), larger first, ties in response order, cut to 10; every item
   * left out is outranked by every item kept.
   */
  lemma RelatedKeywordsRanked(rows: seq<IdeaRow>, seed: string)
    ensures var items := NonSeedItems(rows, seed);
      var rk := RankedRelated(rows, seed);
      var rel := ProcessResults(rows, seed).relatedKeywords;
      && |rel| == Min(|items|, RelatedLimit)
      && (forall i :: 0 <= i < |rel| ==> rk[i].pos < |items| && rel[i] == items[rk[i].pos])
      && (forall i, j :: 0 <= i < j < |rel| ==> SearchKey(rel[i]) >= SearchKey(rel[j]))
      && (forall i, j :: 0 <= i < j < |rel| && SearchKey(rel[i]) == SearchKey(rel[j]) ==> rk[i].pos < rk[j].pos)
      && (forall p :: 0 <= p < |items| ==> Ranked(p, SearchKey(items[p]), items[p]) in rk)
      && (forall i, j :: 0 <= i < |rel| <= j < |rk| ==> Before(rk[i], rk[j]))
  {
    var items := NonSeedItems(rows, seed);
    var rk := RankedRelated(rows, seed);
    var rel := ProcessResults(rows, seed).relatedKeywords;
    RelatedCut(rows, seed);
    SortDescTop(items, SearchKey, Min(|items|, RelatedLimit), rk, rel);
  }

  lemma RelatedCut(rows: seq<IdeaRow>, seed: string)
    ensures var rk := RankedRelated(rows, seed);
      ProcessResults(rows, seed).relatedKeywords == Values(rk[..Min(|rk|, RelatedLimit)])
  {
  }

  predicate DistinctStrings(ws: seq<string>) {
    forall i, j :: 0 <= i < j < |ws| ==> ws[i] != ws[j]
  }

  lemma FirstIndexAppend(ws: seq<string>, x: string, w: string)
    ensures w in ws ==> FirstIndex(ws + [x], w) == FirstIndex(ws, w)
    ensures w !in ws && w == x ==> FirstIndex(ws + [x], w) == |ws|
  {
    var k := FirstIndex(ws + [x], w);
    if w in ws {
      var k0 := FirstIndex(ws, w);
      assert (ws + [x])[k0] == w;
    } else if w == x {
      assert (ws + [x])[|ws|] == w;
      assert forall j :: 0 <= j < |ws| ==> (ws + [x])[j] != w;
    }
  }

  /** Every counted word has exactly one `word_counts` entry. */
  lemma {:induction false} TallyWords(ws: seq<string>)
    ensures forall w :: w in ws <==> w in WordsOf(Tally(ws))
    decreases |ws|
  {
    if |ws| > 0 {
      var n := |ws| - 1;
      var pre, x := ws[..n], ws[n];
      assert ws == pre + [x];
      TallyWords(pre);
      var t0 := Tally(pre);
      var t := Tally(ws);
      assert t == Bump(t0, x);
      forall w
        ensures w in ws <==> w in WordsOf(t)
      {
        if w in WordsOf(t) {
          var i :| 0 <= i < |t| && WordsOf(t)[i] == w;
          if i < |t0| {
            assert WordsOf(t0)[i] == w;
          }
        }
        if w in WordsOf(t0) {
          var i :| 0 <= i < |t0| && WordsOf(t0)[i] == w;
          assert WordsOf(t)[i] == w;
        }
        if w == x && x !in WordsOf(t0) {
          assert WordsOf(t)[|t0|] == w;
        }
      }
    }
  }

  /** Counting one more word keeps every entry's count equal to its word's occurrences. */
  lemma BumpCounts(pre: seq<string>, x: string, ws: seq<string>, t0: seq<WordCount>, t: seq<WordCount>)
    requires ws == pre + [x]
    requires DistinctWords(t0) && t == Bump(t0, x)
    requires forall i :: 0 <= i < |t0| ==> t0[i].count == Occurrences(pre, t0[i].word)
    requires forall w :: w in pre <==> w in WordsOf(t0)
    ensures forall i :: 0 <= i < |t| ==> t[i].count == Occurrences(ws, t[i].word)
  {
    assert multiset(ws) == multiset(pre) + multiset{x};
    forall i | 0 <= i < |t|
      ensures t[i].count == Occurrences(ws, t[i].word)
    {
      if i < |t0| {
        assert t[i].word == t0[i].word;
      } else {
        assert x !in WordsOf(t0);
      }
    }
  }

  /** Each `word_counts` entry holds the number of occurrences of its word. */
  lemma {:induction false} TallyCounts(ws: seq<string>)
    ensures forall i :: 0 <= i < |Tally(ws)| ==> Tally(ws)[i].count == Occurrences(ws, Tally(ws)[i].word)
    decreases |ws|
  {
    if |ws| > 0 {
      var n := |ws| - 1;
      var pre, x := ws[..n], ws[n];
      assert ws == pre + [x];
      TallyCounts(pre);
      TallyWords(pre);
      BumpCounts(pre, x, ws, Tally(pre), Tally(ws));
    }
  }

  /** Counting one more word keeps the entries in order of their words' first occurrence. */
  lemma BumpOrder(pre: seq<string>, x: string, ws: seq<string>, t0: seq<WordCount>, t: seq<WordCount>)
    requires ws == pre + [x]
    requires DistinctWords(t0) && t == Bump(t0, x)
    requires forall i, j :: 0 <= i < j < |t0| ==> FirstIndex(pre, t0[i].word) < FirstIndex(pre, t0[j].word)
    requires forall w :: w in pre <==> w in WordsOf(t0)
    ensures forall i, j :: 0 <= i < j < |t| ==> FirstIndex(ws, t[i].word) < FirstIndex(ws, t[j].word)
  {
    forall i, j | 0 <= i < j < |t|
      ensures FirstIndex(ws, t[i].word) < FirstIndex(ws, t[j].word)
    {
      assert t[i].word == t0[i].word == WordsOf(t0)[i];
      FirstIndexAppend(pre, x, t[i].word);
      FirstIndexAppend(pre, x, t[j].word);
      if j < |t0| {
        assert t[j].word == t0[j].word == WordsOf(t0)[j];
      } else {
        assert t[j].word == x && x !in pre;
      }
    }
  }

  /** `word_counts` lists its words in order of first occurrence. */
  lemma {:induction false} TallyOrder(ws: seq<string>)
    ensures forall i, j :: 0 <= i < j < |Tally(ws)| ==> FirstIndex(ws, Tally(ws)[i].word) < FirstIndex(ws, Tally(ws)[j].word)
    decreases |ws|
  {
    if |ws| > 0 {
      var n := |ws| - 1;
      var pre, x := ws[..n], ws[n];
      assert ws == pre + [x];
      TallyOrder(pre);
      TallyWords(pre);
      BumpOrder(pre, x, ws, Tally(pre), Tally(ws));
    }
  }

  /** Word `a` comes before word `b` in `sorted(word_counts.items(), key=count, reverse=True)`. */
  predicate Outranks(ws: seq<string>, a: string, b: string) {
    Occurrences(ws, a) > Occurrences(ws, b)
    || (Occurrences(ws, a) == Occurrences(ws, b) && FirstIndex(ws, a) < FirstIndex(ws, b))
  }

  lemma RankedWordsDistinct(ws: seq<string>)
    ensures DistinctStrings(RankedWords(ws))
  {
    var t := Tally(ws);
    var r := SortDesc(t, CountKey);
    var rw := RankedWords(ws);
    SortDescFacts(t, CountKey, 0);
    assert forall i :: 0 <= i < |rw| ==> rw[i] == t[r[i].pos].word;
    forall i, j | 0 <= i < j < |rw|
      ensures rw[i] != rw[j]
    {
      assert r[i].pos != r[j].pos;
    }
  }

  /** Sorting the entries only reorders their words. */
  lemma SortedWords(t: seq<WordCount>, r: seq<Ranked<WordCount>>, rw: seq<string>)
    requires r == SortDesc(t, CountKey) && rw == WordsOf(Values(r))
    ensures forall j :: 0 <= j < |rw| ==> r[j].pos < |t| && rw[j] == t[r[j].pos].word
    ensures forall w :: w in rw <==> w in WordsOf(t)
  {
    SortDescFacts(t, CountKey, 0);
    forall j | 0 <= j < |rw|
      ensures r[j].pos < |t| && rw[j] == t[r[j].pos].word
    {
      assert rw[j] == Values(r)[j].word;
    }
    forall w | w in WordsOf(t)
      ensures w in rw
    {
      var p :| 0 <= p < |t| && WordsOf(t)[p] == w;
      var e := Ranked(p, CountKey(t[p]), t[p]);
      assert e in r;
      var j :| 0 <= j < |r| && r[j] == e;
      assert rw[j] == w;
    }
    forall w | w in rw
      ensures w in WordsOf(t)
    {
      var j :| 0 <= j < |rw| && rw[j] == w;
      assert WordsOf(t)[r[j].pos] == w;
    }
  }

  lemma RankedWordsCover(ws: seq<string>)
    ensures forall w :: w in ws ==> w in RankedWords(ws)
  {
    var t := Tally(ws);
    TallyWords(ws);
    SortedWords(t, SortDesc(t, CountKey), RankedWords(ws));
  }

  lemma RankedWordsCounted(ws: seq<string>)
    ensures forall w :: w in RankedWords(ws) ==> w in ws
  {
    var t := Tally(ws);
    TallyWords(ws);
    SortedWords(t, SortDesc(t, CountKey), RankedWords(ws));
  }

  lemma RankedWordsMembers(ws: seq<string>)
    ensures var rw := RankedWords(ws);
      && DistinctStrings(rw)
      && (forall w :: w in ws <==> w in rw)
  {
    RankedWordsDistinct(ws);
    RankedWordsCover(ws);
    RankedWordsCounted(ws);
  }

  /** Each ranked word outranks every later one. */
  lemma RankedWordsOrder(ws: seq<string>)
    ensures var rw := RankedWords(ws);
      forall i, j :: 0 <= i < j < |rw| ==> Outranks(ws, rw[i], rw[j])
  {
    var t := Tally(ws);
    var r := SortDesc(t, CountKey);
    var rw := RankedWords(ws);
    TallyCounts(ws);
    TallyOrder(ws);
    SortDescFacts(t, CountKey, 0);
    forall i, j | 0 <= i < j < |rw|
      ensures Outranks(ws, rw[i], rw[j])
    {
      var pi, pj := r[i].pos, r[j].pos;
      assert rw[i] == t[pi].word && rw[j] == t[pj].word;
      assert r[i].key == Occurrences(ws, rw[i]);
      assert r[j].key == Occurrences(ws, rw[j]);
      if r[i].key == r[j].key {
        assert pi < pj;
      }
    }
  }

  /**
   * The top-8 cut: at most 8 distinct counted words, each outranking the
   * next, every word left out outranked by every word kept, and nothing
   * left out when fewer than 8 are kept.
   */
  /** Cutting a ranking of `ws`'s distinct words keeps the best words and outranks every word it drops. */
  lemma RankingPrefix(ws: seq<string>, rw: seq<string>, m: nat)
    requires m <= |rw| && DistinctStrings(rw)
    requires forall w :: w in ws <==> w in rw
    requires forall i, j :: 0 <= i < j < |rw| ==> Outranks(ws, rw[i], rw[j])
    ensures var top := rw[..m];
      && DistinctStrings(top)
      && (forall i :: 0 <= i < |top| ==> top[i] in ws)
      && (forall i, j :: 0 <= i < j < |top| ==> Outranks(ws, top[i], top[j]))
      && (forall w, i :: w in ws && w !in top && 0 <= i < |top| ==> Outranks(ws, top[i], w))
      && (m == |rw| ==> forall w :: w in ws ==> w in top)
  {
    var top := rw[..m];
    assert forall i :: 0 <= i < m ==> top[i] == rw[i];
    forall i | 0 <= i < m
      ensures top[i] in ws
    {
      assert rw[i] in rw;
    }
    forall w, i | w in ws && w !in top && 0 <= i < m
      ensures Outranks(ws, top[i], w)
    {
      var j :| 0 <= j < |rw| && rw[j] == w;
    }
    if m == |rw| {
      assert top == rw;
    }
  }

  lemma TopWordsRanked(ws: seq<string>)
    ensures var top := TopWords(ws);
      && |top| <= ProofLimit
      && DistinctStrings(top)
      && (forall i :: 0 <= i < |top| ==> top[i] in ws)
      && (forall i, j :: 0 <= i < j < |top| ==> Outranks(ws, top[i], top[j]))
      && (forall w, i :: w in ws && w !in top && 0 <= i < |top| ==> Outranks(ws, top[i], w))
      && (|top| < ProofLimit ==> forall w :: w in ws ==> w in top)
  {
    var rw := RankedWords(ws);
    RankedWordsMembers(ws);
    RankedWordsOrder(ws);
    RankingPrefix(ws, rw, Min(|rw|, ProofLimit));
  }

  /**
   * `proof_keywords` is the top-8 cut of the counted words, all of them
   * proof words.
   */
  lemma ProofKeywordsTop(rows: seq<IdeaRow>, seed: string)
    ensures var cands := ProofCandidates(rows, seed);
      var pk := ProcessResults(rows, seed).proofKeywords;
      && |pk| <= ProofLimit
      && DistinctStrings(pk)
      && (forall i :: 0 <= i < |pk| ==> pk[i] in cands && IsProofWord(pk[i], seed))
      && (forall i, j :: 0 <= i < j < |pk| ==> Outranks(cands, pk[i], pk[j]))
      && (forall w, i :: w in cands && w !in pk && 0 <= i < |pk| ==> Outranks(cands, pk[i], w))
      && (|pk| < ProofLimit ==> forall w :: w in cands ==> w in pk)
  {
    TopWordsRanked(ProofCandidates(rows, seed));
  }

  lemma ProofCandidatesAppend(a: seq<IdeaRow>, b: seq<IdeaRow>, seed: string)
    ensures ProofCandidates(a + b, seed) == ProofCandidates(a, seed) + ProofCandidates(b, seed)
    decreases |a|
  {
    if |a| > 0 {
      assert (a + b)[1..] == a[1..] + b && (a + b)[0] == a[0];
      ProofCandidatesAppend(a[1..], b, seed);
      assert ProofCandidates(a + b, seed) == TextProofWords(a[0].text, seed) + ProofCandidates(a[1..] + b, seed);
    } else {
      assert a + b == b;
    }
  }

  /**
   * The counted words of row `j` sit, in order, between those of the rows
   * before and after it, whether or not row `j` is the main keyword.
   */
  lemma EveryRowCounted(rows: seq<IdeaRow>, seed: string, j: nat)
    requires j < |rows|
    ensures ProofCandidates(rows, seed)
      == ProofCandidates(rows[..j], seed) + TextProofWords(rows[j].text, seed) + ProofCandidates(rows[j + 1..], seed)
  {
    assert rows == rows[..j] + ([rows[j]] + rows[j + 1..]);
    ProofCandidatesAppend(rows[..j], [rows[j]] + rows[j + 1..], seed);
    assert ([rows[j]] + rows[j + 1..])[1..] == rows[j + 1..];
  }

  /** A cleaned word is counted exactly when it is a proof word. */
  lemma {:induction false} KeepProofWordsMembers(cs: seq<string>, seed: string, w: string)
    ensures w in KeepProofWords(cs, seed) <==> w in cs && IsProofWord(w, seed)
    decreases |cs|
  {
    if |cs| > 0 {
      KeepProofWordsMembers(cs[1..], seed, w);
      assert cs == [cs[0]] + cs[1..];
    }
  }

  /** A word of an idea text is counted exactly when its cleaned form is a proof word. */
  lemma TextProofWordsMembers(text: string, seed: string, w: string)
    ensures w in TextProofWords(text, seed) <==>
      IsProofWord(w, seed) && exists k :: 0 <= k < |Words(text)| && CleanWord(Words(text)[k]) == w
  {
    var ws := Words(text);
    KeepProofWordsMembers(CleanWords(ws), seed, w);
    if w in CleanWords(ws) {
      var k :| 0 <= k < |ws| && CleanWords(ws)[k] == w;
      assert CleanWord(ws[k]) == w;
    }
  }

  /** Stripping hyphens works piece by piece, so it removes exactly the `-` characters and keeps the rest in order. */
  lemma {:induction false} StripHyphensAppend(a: string, b: string)
    ensures StripHyphens(a + b) == StripHyphens(a) + StripHyphens(b)
    decreases |a|
  {
    if |a| > 0 {
      var h := if a[0] == '-' then "" else [a[0]];
      assert (a + b)[1..] == a[1..] + b && (a + b)[0] == a[0];
      StripHyphensAppend(a[1..], b);
      assert StripHyphens(a) == h + StripHyphens(a[1..]);
      assert StripHyphens(a + b) == h + (StripHyphens(a[1..]) + StripHyphens(b));
    } else {
      assert a + b == b;
    }
  }

  lemma {:induction false} StripHyphensKeepsPlainIds(id: string)
    requires '-' !in id
    ensures StripHyphens(id) == id
    decreases |id|
  {
    if |id| > 0 {
      StripHyphensKeepsPlainIds(id[1..]);
    }
  }
}
