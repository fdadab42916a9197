/** The counting part of `comparative_analysis`: every article's sentiment
    label is tallied as Positive, Negative or, for any other label,
    Neutral. The bar chart itself is not modelled; only the fixed path the
    chart is saved under is reported. */
module Sentiment {
  import opened Articles

  datatype Category = Positive | Negative | Neutral

  /** The file name the chart is saved under. */
  const GraphPath := "sentiment_analysis.png"

  /** The category a label is counted under: exact matches of "Positive"
      and "Negative", and Neutral for everything else. */
  function Classify(sentiment: string): (c: Category)
    ensures c == Positive <==> sentiment == "Positive"
    ensures c == Negative <==> sentiment == "Negative"
    ensures c == Neutral <==> sentiment != "Positive" && sentiment != "Negative"
  {
    if sentiment == "Positive" then Positive
    else if sentiment == "Negative" then Negative
    else Neutral
  }

  /** How many of `articles` are counted under `c`. */
  function Count(articles: seq<Article>, c: Category): (n: nat)
    ensures n <= |articles|
    decreases |articles|
  {
    if articles == [] then 0
    else Count(articles[..|articles| - 1], c) + (if Classify(articles[|articles| - 1].sentiment) == c then 1 else 0)
  }

  /** The dictionary `comparative_analysis` returns. */
  datatype Distribution = Distribution(positive: nat, negative: nat, neutral: nat, graph: string)

  /** The tally, as a value. */
  function Tally(articles: seq<Article>): Distribution {
    Distribution(Count(articles, Positive), Count(articles, Negative), Count(articles, Neutral), GraphPath)
  }

  /** Adding one article raises exactly the count of its label's category,
      Neutral for any label other than "Positive" and "Negative". */
  lemma TallyOneMore(articles: seq<Article>, a: Article)
    ensures var before, after := Tally(articles), Tally(articles + [a]);
      && after.positive == before.positive + (if a.sentiment == "Positive" then 1 else 0)
      && after.negative == before.negative + (if a.sentiment == "Negative" then 1 else 0)
      && after.neutral == before.neutral + (if a.sentiment != "Positive" && a.sentiment != "Negative" then 1 else 0)
  {
    assert (articles + [a])[..|articles|] == articles;
  }

  /** The three counts always add up to the number of articles. */
  lemma {:induction false} TallyConserves(articles: seq<Article>)
    ensures var d := Tally(articles); d.positive + d.negative + d.neutral == |articles|
    decreases |articles|
  {
    if articles != [] {
      var n := |articles| - 1;
      TallyConserves(articles[..n]);
      TallyOneMore(articles[..n], articles[n]);
      assert articles[..n] + [articles[n]] == articles;
    }
  }

  /** The counter loop of `comparative_analysis`. */
  method ComparativeAnalysis(articles: seq<Article>) returns (d: Distribution)
    ensures d == Tally(articles)
    ensures d.positive + d.negative + d.neutral == |articles|
  {
    var pos, neg, neu := 0, 0, 0;
    for i := 0 to |articles|
      invariant Tally(articles[..i]) == Distribution(pos, neg, neu, GraphPath)
      invariant pos + neg + neu == i
    {
      TallyOneMore(articles[..i], articles[i]);
      assert articles[..i] + [articles[i]] == articles[..i + 1];
      var sentiment := articles[i].sentiment;
      if sentiment == "Positive" {
        pos := pos + 1;
      } else if sentiment == "Negative" {
        neg := neg + 1;
      } else {
        neu := neu + 1;
      }
    }
    assert articles[..|articles|] == articles;
    d := Distribution(pos, neg, neu, GraphPath);
  }

  /** Labels [Positive, Positive, Negative, Neutral] tally to 2, 1 and 1. */
  lemma TallyExample(a: Article)
    ensures var arts := [a.(sentiment := "Positive"), a.(sentiment := "Positive"),
                         a.(sentiment := "Negative"), a.(sentiment := "Neutral")];
      Tally(arts) == Distribution(2, 1, 1, GraphPath)
  {
    var p, n, u := a.(sentiment := "Positive"), a.(sentiment := "Negative"), a.(sentiment := "Neutral");
    TallyOneMore([], p);
    TallyOneMore([p], p);
    TallyOneMore([p, p], n);
    TallyOneMore([p, p, n], u);
    assert [] + [p] == [p] && [p] + [p] == [p, p] && [p, p] + [n] == [p, p, n] && [p, p, n] + [u] == [p, p, n, u];
  }
}
