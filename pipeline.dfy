/** `process_news`: the whole pipeline for one company name, composed from
    the stages. The collaborators that later stages call on values computed
    earlier (the two summarisers, the translator, the speech engine) are
    given as functions; the per-URL collaborators as their outcomes. */
module Pipeline {
  import opened Wrappers
  import opened Text
  import opened Articles
  import opened Summary
  import opened Translation
  import opened Speech
  import opened Sentiment

  datatype Collaborators = Collaborators(
    abstractive: string -> Outcome<string>,
    extractive: string -> Outcome<string>,
    translator: string -> Outcome<string>,
    synthesize: (string, string) -> Outcome<string>)

  /** The dictionary `process_news` returns. */
  datatype Report = Report(
    company: string,
    articles: seq<Article>,
    comparativeSentiment: Distribution,
    finalSummary: string,
    hindiSummary: string,
    ttsAudio: Option<string>)

  /** Articles, then summary, translation of the summary, speech of the
      translation, and the sentiment tally of the same articles, assuming
      URL discovery and chart rendering succeed. Its articles are the relevant ones in input
      order, its counts add up to their number, and the Hindi summary falls
      back to the summary itself when translation fails. */
  function ProcessNews(company: string, urls: seq<UrlOutcome>, c: Collaborators): (r: Report)
    ensures r.company == company
    ensures r.articles == Accepted(company, urls)
    ensures forall a | a in r.articles :: Relevant(company, a.content)
    ensures r.comparativeSentiment == Tally(r.articles)
    ensures r.comparativeSentiment.positive + r.comparativeSentiment.negative
            + r.comparativeSentiment.neutral == |r.articles|
    ensures r.finalSummary == GenerateCombinedSummary(r.articles, c.abstractive, c.extractive)
    ensures c.translator(r.finalSummary).Raised? ==> r.hindiSummary == r.finalSummary
    ensures c.translator(r.finalSummary).Ok? ==> r.hindiSummary == c.translator(r.finalSummary).value
    ensures r.ttsAudio.Some? <==> c.synthesize(r.hindiSummary, DefaultOutputFile).Ok?
    ensures r.ttsAudio == GenerateTtsAudio(r.hindiSummary, DefaultOutputFile, c.synthesize)
  {
    var articles := Accepted(company, urls);
    AcceptedRelevant(company, urls);
    TallyConserves(articles);
    var summary := GenerateCombinedSummary(articles, c.abstractive, c.extractive);
    var hindiSummary := TranslateToHindi(summary, c.translator);
    var ttsAudio := GenerateTtsAudio(hindiSummary, DefaultOutputFile, c.synthesize);
    var sentimentDistribution := Tally(articles);
    Report(company, articles, sentimentDistribution, summary, hindiSummary, ttsAudio)
  }

  /** No candidate URLs: no articles, a zero tally and an empty summary.
      The empty summary is still handed to the translator and the speech
      engine. */
  lemma NoUrls(company: string, c: Collaborators)
    ensures var r := ProcessNews(company, [], c);
      && r.articles == []
      && r.comparativeSentiment == Distribution(0, 0, 0, GraphPath)
      && r.finalSummary == ""
      && r.hindiSummary == TranslateToHindi("", c.translator)
      && (c.translator("").Raised? ==> r.hindiSummary == "")
  {
    var r := ProcessNews(company, [], c);
    assert Visits(company, []) == [];
    assert r.articles == [];
    assert r.comparativeSentiment == Tally([]);
    assert CombinedText([]) == Join([]);
    assert r.finalSummary == GenerateCombinedSummary([], c.abstractive, c.extractive);
  }

  /** One of three sources fails: the report holds the other two articles,
      in order, and a tally over exactly those two. */
  lemma OneSourceFails(company: string, u1: UrlOutcome, bad: UrlOutcome, u2: UrlOutcome,
                       a1: Article, a2: Article, c: Collaborators)
    requires Visit(company, u1) == Some(a1) && Visit(company, bad) == None && Visit(company, u2) == Some(a2)
    ensures var r := ProcessNews(company, [u1, bad, u2], c);
      && r.articles == [a1, a2]
      && r.comparativeSentiment == Tally([a1, a2])
      && r.comparativeSentiment.positive + r.comparativeSentiment.negative
         + r.comparativeSentiment.neutral == 2
  {
    var urls := [u1, bad, u2];
    SkipMiddle(company, u1, bad, u2);
    var r := ProcessNews(company, urls, c);
    assert r.articles == [a1, a2];
  }
}
