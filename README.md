# company-lens news pipeline — a Dafny model

This project models the decision logic of the news-intelligence pipeline in
`utils.py` of company-lens. Given a company name, the pipeline does the following:

1. It collects candidate article URLs, extracts each page's text, and keeps only the articles that mention the company.
2. It scores each kept article's sentiment.
3. It summarises the kept articles through a chain of fallbacks.
4. It translates the summary to Hindi and synthesises speech from the translation.
5. It tallies the sentiment labels.
6. It assembles all of this into one report.

Every external library is an abstract collaborator. That covers the URL search, the
page downloader and parser, the secondary extractor, the sentiment model, the
BART and LexRank summarisers, the Google translator and the Edge TTS engine.
Each call either succeeds with a value or raises (`Wrappers.Outcome`).

- The per-URL collaborators are given as one record of outcomes per candidate URL (`Articles.UrlOutcome`).
- The later collaborators are functions applied to the text the pipeline hands them (`Pipeline.Collaborators`).

Modules, one per component:

- `Wrappers`: `Option` and `Outcome`.
- `Text`: the parts of Python's `str` that the pipeline uses. These are `split()`, `strip()`, `' '.join`, `lower()` (ASCII letters only), `in` and `[:n]`. Also here is the whitespace class of `str.isspace`, which `split()` and `strip()` use.
- `Chunking`: `chunk_text_by_words`.
- `Articles`: `process_articles`. It has a per-URL step (`Visit`), the returned list as a value (`Accepted`), and the loop itself as a method (`ProcessArticles`).
- `Summary`: `generate_combined_summary`.
- `Translation`: `translate_to_hindi`. `Speech`: `generate_tts_audio`.
- `Sentiment`: the counting loop of `comparative_analysis`. It has the tally as a value (`Tally`) and the loop as a method (`ComparativeAnalysis`).
- `Pipeline`: `process_news`.

Behaviours of the code worth noting, all of which the model reproduces:

- An exception from the sentiment scorer is raised inside the per-URL `try`, so the article is dropped along with everything else extracted for that URL.
- A download or parse exception skips the URL. The secondary extractor is only consulted when the parsed text is blank.
- With no URLs at all, the empty summary is still passed to the translator and to the speech engine. So the Hindi summary and the audio are whatever those calls give for `""`; they are not forced to `""` and "absent".
- The summary is `""` when the joined contents are whitespace-only, and also when the abstractive model succeeds with an empty summary. An empty extractive summary falls through to the 500-character prefix.

## Model

| member | source | states |
|---|---|---|
| `Text.Split` | utils.py:11 | `text.split()` yields only non-empty words without whitespace, and yields no words exactly when the text is all whitespace. Together with `Text.SplitWordThen` and `Text.SplitSpaceThen` this fixes the result on every string: the maximal whitespace-free runs, in order |
| `Text.SplitWordThen` | utils.py:11 | a word followed by whitespace or by nothing splits into that word, then the split of the rest |
| `Text.SplitSpaceThen` | utils.py:11 | a leading whitespace character is skipped: it adds no word and never glues words together |
| `Text.StripSpec` | utils.py:31 | `strip()` is empty exactly when the text is all whitespace; otherwise it starts and ends with a non-whitespace character |
| `Text.TrimStartSpec` | utils.py:31 | the leading-whitespace half of `strip()` drops only whitespace and keeps a suffix that starts with a non-whitespace character |
| `Text.TrimEndSpec` | utils.py:31 | the trailing-whitespace half of `strip()` drops only whitespace and keeps a prefix that ends with a non-whitespace character |
| `Text.SplitJoin` | utils.py:11-12 | round trip: splitting the single-space join of words gives back exactly those words |
| `Text.JoinBlank` | utils.py:52-53 | the `" "`-join of texts is all whitespace exactly when every joined text is |
| `Text.Prefix` | utils.py:72-75 | `s[:n]` is a prefix of `s` of length min(n, len(s)) |
| `Text.Lower` | utils.py:33 | `.lower()` keeps the length, so positions in the lower-cased text match the original |
| `Text.LowerSpec` | utils.py:33 | lower-casing leaves no ASCII capital, changes a character only by mapping a capital to its small letter, and is idempotent |
| `Text.Contains` | utils.py:33 | `sub in s`: the empty string is in every string, and nothing longer than `s` is in `s` |
| `Text.ContainsSpec` | utils.py:33 | `sub in s` holds iff `s[i:i+len(sub)] == sub` for some position `i` |
| `Chunking.ChunkTextByWords` | utils.py:10-12 | a zero chunk size raises (from `range`), a negative one gives no chunks, and whitespace-only text gives no chunks |
| `Chunking.GroupsPartition` | utils.py:12 | the groups concatenate back to `words` in order, and each holds 1 to k words |
| `Chunking.GroupsFull` | utils.py:9-12 | every group but the last holds exactly k words. With `GroupsPartition`, the groups are the slices `words[i:i+k]` over `range(0, len(words), k)` |
| `Chunking.GroupCount` | utils.py:12 | there are ceil(len(words) / k) slices |
| `Chunking.ChunksPartitionWords` | utils.py:10-12 | every chunk has at least 1 and at most `chunk_size` words and is exactly those words joined by single spaces. Every chunk but the last has exactly `chunk_size` words, and the chunks' words in order are exactly `text.split()` |
| `Chunking.ChunksCount` | utils.py:10-12 | the number of chunks is ceil(number of words / `chunk_size`) |
| `Chunking.DefaultChunking` | utils.py:10-12 | with the default `chunk_size=100` the call never raises, each chunk is 1 to 100 words joined by single spaces, with exactly 100 in every chunk but the last, and the chunks hold the text's words in order |
| `Articles.VisitSpec` | utils.py:27-46 | a URL yields a record iff download and parse succeeded, content was obtained, it is non-empty and contains the lower-cased company name, and the sentiment call returned. The content is the stripped parsed text, or the secondary extractor's text when that is blank. Title defaults to "No Title", date to "N/A", and the sentiment label and score are attached |
| `Articles.ProcessArticles` | utils.py:14-47 | the loop returns exactly the per-URL records that were not skipped, in URL order, and no more of them than there are URLs |
| `Articles.AcceptedAppend` | utils.py:26-47 | the articles for a concatenation of URL lists are the articles for the first list followed by those for the second |
| `Articles.SkippedUrl` | utils.py:26-46 | a URL that raises anywhere, or whose content is irrelevant, contributes nothing, and the URLs after it are still processed |
| `Articles.AcceptedIsSubsequence` | utils.py:26-47 | the returned list is the per-URL records at strictly increasing input positions, so each input position contributes at most once and in input order (a URL listed twice is processed twice). A position is used iff that URL was not skipped |
| `Articles.AcceptedRelevant` | utils.py:33-36 | every returned article has non-empty content in whose lower-cased form the lower-cased company name occurs at some position, and a non-empty title |
| `Articles.RelevanceIgnoresCase` | utils.py:33 | content "Acme posted record profits" is kept for company "Acme" and for "acme" |
| `Articles.RelevanceRejectsOtherCompany` | utils.py:33 | the same content is dropped for company "Globex" |
| `Summary.GenerateCombinedSummary` | utils.py:49-75 | whitespace-only joined contents give "". Otherwise the abstractive summary wins when the model call succeeds. If that raised, a non-empty extractive summary is used. Otherwise the result is the first 500 characters of the joined text. The result is "" iff the joined text is blank or the abstractive summary is "" |
| `Summary.EmptySummary` | utils.py:52-60 | the summary is empty iff every article's content is whitespace or the abstractive model returned an empty summary |
| `Translation.TranslateToHindi` | utils.py:77-84 | a translator failure returns the input text unchanged; success returns the translation |
| `Speech.GenerateTtsAudio` | utils.py:114-121 | no audio exactly when the speech call raised; otherwise the speech engine's result |
| `Sentiment.Classify` | utils.py:90-96 | "Positive" and only "Positive" counts as Positive, and "Negative" and only "Negative" counts as Negative. Any other label counts as Neutral |
| `Sentiment.TallyOneMore` | utils.py:89-96 | one more article raises exactly the count of its label's category, with Neutral for any other label |
| `Sentiment.TallyConserves` | utils.py:88-96 | Positive + Negative + Neutral equals the number of articles |
| `Sentiment.ComparativeAnalysis` | utils.py:86-112 | the counter loop returns the tally of the articles with the chart path "sentiment_analysis.png", and its counts sum to the number of articles |
| `Sentiment.TallyExample` | utils.py:88-96 | labels Positive, Positive, Negative, Neutral tally to 2, 1, 1 |
| `Pipeline.ProcessNews` | utils.py:123-145 | the report's company is the input and its articles are the accepted ones, all relevant. Its tally is over those articles and sums to their number. `final_summary` is their combined summary; `hindi_summary` is its translation, or the summary itself when translation fails. `tts_audio` is what `generate_tts_audio` returns for the Hindi summary and `"news_summary.mp3"`, so it is present iff that speech synthesis succeeded |
| `Pipeline.NoUrls` | utils.py:132-145 | with no candidate URLs: no articles, a 0/0/0 tally, an empty summary, and a Hindi summary that is the translator's answer for "" (or "" when it fails) |
| `Pipeline.OneSourceFails` | utils.py:26-47 | when the middle one of three URLs fails, the report holds the other two articles in order, with a tally over exactly those two |

## Left out

- URL discovery (`get_valid_news_urls`), downloading and parsing with `newspaper` and its browser configuration, and `extract_article_content`. These are network I/O. The model takes their results as one `UrlOutcome` per URL.
- The sentiment model, the BART summariser, LexRank, Google Translate and Edge TTS (with its `asyncio.run` bridge). These are foreign model and network calls. Each is an outcome or an outcome-valued function. The sentiment score is an uninterpreted `real`.
- The matplotlib bar chart and `savefig` (utils.py:98-110). The model keeps just the returned path `"sentiment_analysis.png"`.
- `Pipeline.ProcessNews`: assumes URL discovery (utils.py:16) and chart rendering (utils.py:101-110) succeed. Neither is inside a `try`, so in the code a failure of either propagates out of `process_news` and no report is returned; the model always returns one.
- `print` logging of exceptions, the `__main__` console entry point, `app.py` (Streamlit UI) and `api.py` (HTTP routing).
- `Text.Lower`: only ASCII letters are lower-cased, not full Unicode `str.lower()`.
- `Articles.Page`: a missing title is the empty string, because `None` and `''` behave the same in the code. A publish date arrives already rendered by `str`.
- `Articles.UrlOutcome`: a `None` from the secondary extractor is the empty string, because both are rejected by `if not content`.
- `Sentiment.ComparativeAnalysis`: the `.get("sentiment", "Neutral")` default is not modelled separately. Every record built by `process_articles` carries a sentiment, and a defaulted "Neutral" would be counted as Neutral by the same branch.
- `Speech.GenerateTtsAudio`: a speech engine that succeeds yet returns `None` is not distinguished. Success is modelled as returning an audio reference.
- Determinism across runs is not stated as a lemma. Every stage is a function of the collaborators' answers, so equal answers give equal reports by construction.
