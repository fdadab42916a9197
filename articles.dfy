/** `process_articles`: walk the candidate URLs in order, extract each
    page's text, keep the pages that mention the company, and attach the
    sentiment collaborator's verdict. Every collaborator (downloader and
    parser, secondary extractor, sentiment scorer) is represented by the
    outcome it produced for that URL. */
module Articles {
  import opened Wrappers
  import opened Text

  /** What the primary extractor parsed from a downloaded page. A missing
      title is the empty string (Python's `None` and `''` are both falsy);
      the date, when present, is already rendered with `str`. */
  datatype Page = Page(title: string, publishDate: Option<string>, text: string)

  /** The sentiment collaborator's `(label, score)` pair. The score is a
      float the pipeline only passes along. */
  datatype SentimentResult = SentimentResult(sentiment: string, score: real)

  /** Everything the collaborators answered for one candidate URL:
      - `page`: downloading and parsing it (raises on network/parse errors);
      - `fallback`: the secondary extractor, consulted only when the parsed
        text is blank (a `None` result is the empty string here);
      - `sentiment`: the scorer, consulted only for relevant content. */
  datatype UrlOutcome = UrlOutcome(
    url: string,
    page: Outcome<Page>,
    fallback: Outcome<string>,
    sentiment: Outcome<SentimentResult>)

  /** One accepted article record. */
  datatype Article = Article(
    title: string,
    url: string,
    date: string,
    content: string,
    sentiment: string,
    score: real)

  const NoTitle := "No Title"
  const NoDate := "N/A"

  /** The text the article is judged on: the stripped parsed text when it
      is not blank, otherwise whatever the secondary extractor returned. */
  function ContentOf(page: Page, fallback: Outcome<string>): Outcome<string> {
    if Strip(page.text) != "" then Ok(Strip(page.text)) else fallback
  }

  /** The relevance filter: non-empty content that mentions the company,
      compared after lower-casing both. */
  predicate Relevant(company: string, content: string) {
    content != "" && Contains(Lower(content), Lower(company))
  }

  /** One iteration of the loop, as a value: the record appended for this
      URL, or `None` when the URL is skipped (an exception anywhere, or
      content that fails the relevance filter). */
  function Visit(company: string, u: UrlOutcome): Option<Article>
  {
    match u.page
    case Raised => None
    case Ok(page) =>
      match ContentOf(page, u.fallback)
      case Raised => None
      case Ok(content) =>
        if !Relevant(company, content) then None
        else
          var title := if page.title != "" then page.title else NoTitle;
          var date := match page.publishDate case Some(d) => d case None => NoDate;
          match u.sentiment
          case Raised => None
          case Ok(s) => Some(Article(title, u.url, date, content, s.sentiment, s.score))
  }

  /** What one iteration does: a URL yields a record exactly when the page
      was downloaded and parsed, some content was extracted, the content is
      relevant and the sentiment call returned. The content is the stripped
      parsed text, or the secondary extractor's text when the parsed text is
      blank; the record has the URL, the title or "No Title", the date or
      "N/A", and the sentiment verdict. */
  lemma VisitSpec(company: string, u: UrlOutcome)
    ensures var r := Visit(company, u);
      && (r.Some? <==>
        && u.page.Ok?
        && ContentOf(u.page.value, u.fallback).Ok?
        && Relevant(company, ContentOf(u.page.value, u.fallback).value)
        && u.sentiment.Ok?)
      && (r.Some? ==>
        && r.value.url == u.url
        && r.value.content == ContentOf(u.page.value, u.fallback).value
        && r.value.title == (if u.page.value.title == "" then NoTitle else u.page.value.title)
        && r.value.date == (match u.page.value.publishDate case Some(d) => d case None => NoDate)
        && r.value.sentiment == u.sentiment.value.sentiment
        && r.value.score == u.sentiment.value.score)
      && (u.page.Ok? ==>
            ContentOf(u.page.value, u.fallback)
            == (if Blank(u.page.value.text) then u.fallback else Ok(Strip(u.page.value.text))))
  {
    if u.page.Ok? {
      StripSpec(u.page.value.text);
    }
  }

  /** The outcome of every iteration, URL by URL. */
  function Visits(company: string, urls: seq<UrlOutcome>): (os: seq<Option<Article>>)
    ensures |os| == |urls|
    ensures forall i | 0 <= i < |urls| :: os[i] == Visit(company, urls[i])
  {
    seq(|urls|, i requires 0 <= i < |urls| => Visit(company, urls[i]))
  }

  /** The present values of a sequence of optional records, in order. */
  function Present(os: seq<Option<Article>>): (r: seq<Article>)
    ensures |r| <= |os|
    decreases |os|
  {
    if os == [] then []
    else
      var last := match os[|os| - 1] case None => [] case Some(a) => [a];
      Present(os[..|os| - 1]) + last
  }

  /** The list `process_articles` returns: the records of the URLs that
      were not skipped, in input order. */
  function Accepted(company: string, urls: seq<UrlOutcome>): seq<Article> {
    Present(Visits(company, urls))
  }

  /** The loop of `process_articles` over the collaborators' outcomes. */
  method ProcessArticles(company: string, urls: seq<UrlOutcome>) returns (articles: seq<Article>)
    ensures articles == Accepted(company, urls)
    ensures |articles| <= |urls|
  {
    articles := [];
    for i := 0 to |urls|
      invariant articles == Present(Visits(company, urls[..i]))
    {
      ghost var done := Visits(company, urls[..i]);
      assert Visits(company, urls[..i + 1]) == done + [Visit(company, urls[i])];
      PresentSnoc(done, Visit(company, urls[i]));
      var u := urls[i];
      if u.page.Raised? {
        continue;
      }
      var page := u.page.value;
      var content: string;
      if Strip(page.text) != "" {
        content := Strip(page.text);
      } else if u.fallback.Raised? {
        continue;
      } else {
        content := u.fallback.value;
      }
      if content == "" || !Contains(Lower(content), Lower(company)) {
        continue;
      }
      var title := if page.title != "" then page.title else NoTitle;
      var date := if page.publishDate.Some? then page.publishDate.value else NoDate;
      if u.sentiment.Raised? {
        continue;
      }
      articles := articles + [Article(title, u.url, date, content, u.sentiment.value.sentiment, u.sentiment.value.score)];
    }
    assert urls[..|urls|] == urls;
  }

  lemma PresentSnoc(os: seq<Option<Article>>, o: Option<Article>)
    ensures Present(os + [o]) == Present(os) + (match o case None => [] case Some(a) => [a])
  {
    assert (os + [o])[..|os|] == os;
  }

  lemma {:induction false} PresentAppend(os: seq<Option<Article>>, ps: seq<Option<Article>>)
    ensures Present(os + ps) == Present(os) + Present(ps)
    decreases |ps|
  {
    if ps != [] {
      var qs := os + ps;
      assert qs[..|qs| - 1] == os + ps[..|ps| - 1];
      assert qs[|qs| - 1] == ps[|ps| - 1];
      PresentAppend(os, ps[..|ps| - 1]);
    } else {
      assert os + ps == os;
    }
  }

  /** Processing is compositional: the articles of a concatenation of URL
      lists are those of the first list followed by those of the second. */
  lemma AcceptedAppend(company: string, us: seq<UrlOutcome>, vs: seq<UrlOutcome>)
    ensures Accepted(company, us + vs) == Accepted(company, us) + Accepted(company, vs)
  {
    assert Visits(company, us + vs) == Visits(company, us) + Visits(company, vs);
    PresentAppend(Visits(company, us), Visits(company, vs));
  }

  /** A URL whose download, parse, extraction or sentiment call raised, or
      whose content is irrelevant, contributes nothing, and the URLs after
      it are still processed. */
  lemma SkippedUrl(company: string, us: seq<UrlOutcome>, u: UrlOutcome, vs: seq<UrlOutcome>)
    requires Visit(company, u) == None
    ensures Accepted(company, us + [u] + vs) == Accepted(company, us) + Accepted(company, vs)
  {
    AcceptedAppend(company, us + [u], vs);
    AcceptedAppend(company, us, [u]);
    NothingFromSkipped(company, u);
  }

  lemma NothingFromSkipped(company: string, u: UrlOutcome)
    requires Visit(company, u) == None
    ensures Accepted(company, [u]) == []
  {
    assert Visits(company, [u]) == [] + [None];
    PresentSnoc([], None);
  }

  lemma KeptAlone(company: string, u: UrlOutcome)
    requires Visit(company, u).Some?
    ensures Accepted(company, [u]) == [Visit(company, u).value]
  {
    assert Visits(company, [u]) == [] + [Visit(company, u)];
    PresentSnoc([], Visit(company, u));
  }

  lemma SkipMiddle(company: string, u1: UrlOutcome, bad: UrlOutcome, u2: UrlOutcome)
    requires Visit(company, u1).Some? && Visit(company, bad) == None && Visit(company, u2).Some?
    ensures Accepted(company, [u1, bad, u2]) == [Visit(company, u1).value, Visit(company, u2).value]
  {
    SkippedUrl(company, [u1], bad, [u2]);
    assert [u1] + [bad] + [u2] == [u1, bad, u2];
    KeptAlone(company, u1);
    KeptAlone(company, u2);
  }

  /** The positions whose optional record is present. */
  function PresentIndices(os: seq<Option<Article>>): seq<nat>
    decreases |os|
  {
    if os == [] then []
    else PresentIndices(os[..|os| - 1]) + (if os[|os| - 1].Some? then [|os| - 1] else [])
  }

  lemma {:induction false} PresentIsSubsequence(os: seq<Option<Article>>)
    ensures var ks, r := PresentIndices(os), Present(os);
      && |ks| == |r|
      && (forall j | 0 <= j < |ks| :: ks[j] < |os| && os[ks[j]] == Some(r[j]))
      && (forall j, j' | 0 <= j < j' < |ks| :: ks[j] < ks[j'])
      && (forall i | 0 <= i < |os| :: i in ks <==> os[i].Some?)
    decreases |os|
  {
    if os != [] {
      var n := |os| - 1;
      PresentIsSubsequence(os[..n]);
    }
  }

  /** The returned list is exactly the per-URL records taken at strictly
      increasing positions, and the positions left out are precisely the
      URLs that were skipped: each URL contributes at most once, in input
      order. */
  lemma AcceptedIsSubsequence(company: string, urls: seq<UrlOutcome>)
    ensures var ks, r := PresentIndices(Visits(company, urls)), Accepted(company, urls);
      && |ks| == |r| <= |urls|
      && (forall j | 0 <= j < |ks| :: ks[j] < |urls| && Visit(company, urls[ks[j]]) == Some(r[j]))
      && (forall j, j' | 0 <= j < j' < |ks| :: ks[j] < ks[j'])
      && (forall i | 0 <= i < |urls| :: i in ks <==> Visit(company, urls[i]).Some?)
  {
    PresentIsSubsequence(Visits(company, urls));
  }

  /** Every returned article passed the relevance filter, so the
      lower-cased company name occurs at some position of its lower-cased
      content, and it carries a non-empty title ("No Title" when the page
      had none). */
  lemma AcceptedRelevant(company: string, urls: seq<UrlOutcome>)
    ensures forall a | a in Accepted(company, urls) ::
      && Relevant(company, a.content)
      && (exists k :: OccursAt(Lower(a.content), Lower(company), k))
      && a.title != ""
  {
    forall a | a in Accepted(company, urls)
      ensures && Relevant(company, a.content)
              && (exists k :: OccursAt(Lower(a.content), Lower(company), k))
              && a.title != ""
    {
      var i := PresentFrom(Visits(company, urls), a);
      VisitSpec(company, urls[i]);
      ContainsSpec(Lower(a.content), Lower(company));
    }
  }

  /** Where a present record came from. */
  lemma {:induction false} PresentFrom(os: seq<Option<Article>>, a: Article) returns (i: nat)
    requires a in Present(os)
    ensures i < |os| && os[i] == Some(a)
    decreases |os|
  {
    var n := |os| - 1;
    if a in Present(os[..n]) {
      i := PresentFrom(os[..n], a);
    } else {
      i := n;
    }
  }

  /** The relevance filter ignores case: an article about "Acme" is kept
      whether the company is written "Acme" or "acme". */
  lemma RelevanceIgnoresCase()
    ensures Relevant("Acme", "Acme posted record profits")
    ensures Relevant("acme", "Acme posted record profits")
  {
    assert Lower("Acme posted record profits")[..4] == "acme";
    assert Lower("Acme") == "acme" == Lower("acme");
  }

  /** The same article is dropped when the company is "Globex". */
  lemma RelevanceRejectsOtherCompany()
    ensures !Relevant("Globex", "Acme posted record profits")
  {
    assert Lower("Globex")[0] == 'g';
    LowerAvoids("Acme posted record profits", 'g');
    NoStartingChar(Lower("Acme posted record profits"), Lower("Globex"));
  }
}
