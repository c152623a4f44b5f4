/**
 * Worked examples of the mission's research and parsing steps on small
 * concrete inputs.
 */
module Scenarios {
  import opened Wrappers
  import Text
  import opened GoogleAds
  import opened Providers
  import opened Competitors
  import opened JinaReader
  import opened Events
  import opened ContentFilter
  import Researcher
  import ContentParser

  function Item(title: string, l: string): SearchItem {
    SearchItem(Some(title), Some(l))
  }

  const SerpOrganic := [Item("A1", "a1"), Item("A2", "a2"), Item("A3", "a3")]
  const CustomFound := [Item("B1", "b1"), Item("A2 again", "a2")]
  const SerpEntries := [Competitor(Some("A1"), "a1", SerpApi), Competitor(Some("A2"), "a2", SerpApi), Competitor(Some("A3"), "a3", SerpApi)]
  const CustomEntries := [Competitor(Some("B1"), "b1", CustomSearch)]

  lemma SerpCollected()
    ensures Collect(SerpOrganic, SerpApi, {}) == SerpEntries
  {
    var s := SerpOrganic;
    assert s[1..] == [Item("A2", "a2"), Item("A3", "a3")] && s[1..][1..] == [Item("A3", "a3")] && s[1..][1..][1..] == [];
    assert "a1" != "a2" && "a1" != "a3" && "a2" != "a3" by {
      assert "a1"[1] != "a2"[1] && "a1"[1] != "a3"[1] && "a2"[1] != "a3"[1];
    }
    var a3 := Collect(s[1..][1..], SerpApi, {"a1", "a2"});
    assert a3 == [Competitor(Some("A3"), "a3", SerpApi)] by {
      CollectStep(s[1..][1..], SerpApi, {"a1", "a2"});
    }
    var a2 := Collect(s[1..], SerpApi, {"a1"});
    assert a2 == [Competitor(Some("A2"), "a2", SerpApi)] + a3 by {
      CollectStep(s[1..], SerpApi, {"a1"});
      assert {"a1"} + {"a2"} == {"a1", "a2"};
    }
    CollectStep(s, SerpApi, {});
    assert {} + {"a1"} == {"a1"};
  }

  lemma CustomCollected()
    ensures Collect(CustomFound, CustomSearch, {"a1", "a2", "a3"}) == CustomEntries
  {
    var c := CustomFound;
    assert c[1..] == [Item("A2 again", "a2")] && c[1..][1..] == [];
    assert "b1" != "a1" && "b1" != "a2" && "b1" != "a3" by {
      assert "b1"[0] != "a1"[0];
    }
    var b2 := Collect(c[1..], CustomSearch, {"a1", "a2", "a3", "b1"});
    assert b2 == [] by {
      CollectStep(c[1..], CustomSearch, {"a1", "a2", "a3", "b1"});
    }
    CollectStep(c, CustomSearch, {"a1", "a2", "a3"});
    assert {"a1", "a2", "a3"} + {"b1"} == {"a1", "a2", "a3", "b1"};
  }

  /**
   * SerpAPI returns `a1`, `a2`, `a3` and Custom Search returns `b1` and
   * `a2` again under another title: the competitor list holds four
   * entries, the three SerpAPI links first and then `b1`; the repeated `a2`
   * is dropped and keeps its SerpAPI title and source.
   */
  lemma DuplicateAcrossProviders(kw: KeywordReply)
    ensures Researcher.Research(kw, SerpResults(SerpOrganic, None, None), CustomItems(CustomFound, ""), 10).competitors ==
      [Competitor(Some("A1"), "a1", SerpApi), Competitor(Some("A2"), "a2", SerpApi),
       Competitor(Some("A3"), "a3", SerpApi), Competitor(Some("B1"), "b1", CustomSearch)]
  {
    SerpCollected();
    CustomCollected();
    assert Links(SerpEntries) == {"a1", "a2", "a3"} by {
      assert SerpEntries[0].link == "a1" && SerpEntries[1].link == "a2" && SerpEntries[2].link == "a3";
    }
    assert Merge(SerpOrganic, CustomFound) == SerpEntries + CustomEntries;
  }

  /**
   * `{"data": "x", "content": "a b"}` makes `parse` raise, while with an
   * empty `data` object or an empty `data` string the fields come from the
   * root: two words, the URL asked for and no title.
   */
  lemma DataShapes(url: string)
    ensures var root := JsonObject(None, Some("a b"), None, true);
      && Parse(url, JsonBody(root, DataOther("str"))) == Raised("'str' object has no attribute 'get'")
      && Parse(url, JsonBody(root, DataObject(JsonObject(None, None, None, false)))) == Returned(Parsed(Page(url, NoTitle, 2, "a b")))
      && Parse(url, JsonBody(root, NoData)) == Returned(Parsed(Page(url, NoTitle, 2, "a b")))
  {
    var root := JsonObject(None, Some("a b"), None, true);
    assert NoGet("str") == "'str' object has no attribute 'get'";
    assert Payload(root, DataObject(JsonObject(None, None, None, false))) == Some(root);
    assert Payload(root, NoData) == Some(root);
    TwoWords();
  }

  lemma TwoWords()
    ensures JinaReader.WordCount("a b") == 2
  {
    var s := "a b";
    assert Text.IsSpace(s[1]) && !Text.IsSpace(s[0]) && !Text.IsSpace(s[2]);
    assert Text.SkipSpaces(s, 0) == 0 && Text.SkipWord(s, 0) == 1;
    assert Text.SkipSpaces(s, 1) == 2 && Text.SkipWord(s, 2) == 3;
    assert Text.SkipSpaces(s, 3) == 3;
    assert Text.WordsFrom(s, 3) == [];
    assert Text.WordsFrom(s, 1) == [s[2..3]];
    assert Text.Words(s) == [s[0..1], s[2..3]];
  }

  function PageWith(url: string, words: nat): ParseOutcome {
    Returned(Parsed(Page(url, "T", words, "")))
  }

  /**
   * Pages of 10, 60 and 200 words: the first is skipped, the other two are
   * kept with their word counts, and the log reads `[SKIP]`, `[OK]`,
   * `[OK]`.
   */
  lemma WordCountThreshold()
    ensures var urls := [Competitor(None, "u1", SerpApi), Competitor(None, "u2", SerpApi), Competitor(None, "u3", CustomSearch)];
      var parse := (l: string) => if l == "u1" then PageWith(l, 10) else if l == "u2" then PageWith(l, 60) else PageWith(l, 200);
      var r := ContentParser.Parse(urls, parse);
      && r.competitorsWithContent == [KeptCompetitor(None, "u2", 60, SerpApi), KeptCompetitor(None, "u3", 200, CustomSearch)]
      && r.logs == [Log(ParseSkip("u1")), Log(ParseOk("u2", 60)), Log(ParseOk("u3", 200))]
  {
    var urls := [Competitor(None, "u1", SerpApi), Competitor(None, "u2", SerpApi), Competitor(None, "u3", CustomSearch)];
    var parse := (l: string) => if l == "u1" then PageWith(l, 10) else if l == "u2" then PageWith(l, 60) else PageWith(l, 200);
    var os := ContentParser.Outcomes(urls, parse);
    assert os == [PageWith("u1", 10), PageWith("u2", 60), PageWith("u3", 200)];
    assert urls[..2][..1][..0] == [] && os[..2][..1][..0] == [];
    assert urls[..2][..1] == [urls[0]] && os[..2][..1] == [os[0]];
    assert urls[..2] == [urls[0], urls[1]] && os[..2] == [os[0], os[1]];
    var f1 := Filter(urls[..2][..1], os[..2][..1]);
    assert f1 == Filtered([], [], [ParseSkip("u1")]);
    var f2 := Filter(urls[..2], os[..2]);
    assert f2 == Filtered([os[1].result], [KeptCompetitor(None, "u2", 60, SerpApi)], [ParseSkip("u1"), ParseOk("u2", 60)]);
  }
}
