/** `generate_combined_summary`: join the article texts and summarise them
    with a chain of strategies, the first that succeeds winning. The two
    summarisers (an abstractive model, then extractive sentence ranking)
    are collaborators applied to the combined text. */
module Summary {
  import opened Wrappers
  import opened Text
  import opened Articles

  /** How many characters of the combined text the last resort keeps. */
  const FallbackLength := 500

  /** `" ".join(article["content"] for article in articles)`. */
  function CombinedText(articles: seq<Article>): string {
    Join(seq(|articles|, i requires 0 <= i < |articles| => articles[i].content))
  }

  /** The fallback chain. A blank combined text gives the empty string;
      otherwise the abstractive summary is used whenever the model call
      succeeds; if it raised, the extractive summary is used when it
      succeeded and is non-empty; otherwise the first 500 characters of the
      combined text. The result is empty only for a blank combined text or
      an empty abstractive summary. */
  function GenerateCombinedSummary(
    articles: seq<Article>,
    abstractive: string -> Outcome<string>,
    extractive: string -> Outcome<string>): (r: string)
    ensures var c := CombinedText(articles);
      Blank(c) ==> r == ""
    ensures var c := CombinedText(articles);
      !Blank(c) && abstractive(c).Ok? ==> r == abstractive(c).value
    ensures var c := CombinedText(articles);
      !Blank(c) && abstractive(c).Raised? && extractive(c).Ok? && extractive(c).value != "" ==>
        r == extractive(c).value
    ensures var c := CombinedText(articles);
      !Blank(c) && abstractive(c).Raised? && extractive(c) in {Raised, Ok("")} ==>
        r == Prefix(c, FallbackLength) && 0 < |r| <= FallbackLength
    ensures var c := CombinedText(articles);
      r == "" <==> Blank(c) || abstractive(c) == Ok("")
  {
    var combined := CombinedText(articles);
    StripSpec(combined);
    if Strip(combined) == "" then ""
    else
      match abstractive(combined)
      case Ok(summary) => summary
      case Raised =>
        match extractive(combined)
        case Ok(sentences) => if sentences != "" then sentences else Prefix(combined, FallbackLength)
        case Raised => Prefix(combined, FallbackLength)
  }

  /** The summary is skipped (empty) for a set of articles exactly when
      every article's content is whitespace, unless the abstractive model
      itself answered with an empty summary. */
  lemma EmptySummary(articles: seq<Article>, abstractive: string -> Outcome<string>, extractive: string -> Outcome<string>)
    ensures GenerateCombinedSummary(articles, abstractive, extractive) == "" <==>
      (forall a | a in articles :: Blank(a.content)) || abstractive(CombinedText(articles)) == Ok("")
  {
    var contents := seq(|articles|, i requires 0 <= i < |articles| => articles[i].content);
    JoinBlank(contents);
    assert (forall w | w in contents :: Blank(w)) <==> (forall a | a in articles :: Blank(a.content)) by {
      if forall w | w in contents :: Blank(w) {
        forall a | a in articles ensures Blank(a.content) {
          var i :| 0 <= i < |articles| && articles[i] == a;
          assert contents[i] in contents;
        }
      }
    }
  }
}
