/** `chunk_text_by_words`: split a text into words and regroup them into
    consecutive chunks of at most `chunk_size` words, each rejoined with
    single spaces. */
module Chunking {
  import opened Wrappers
  import opened Text

  /** The default `chunk_size`. */
  const DefaultChunkSize := 100

  /** Concatenation of a sequence of word lists. */
  function Flatten(gs: seq<seq<string>>): seq<string> {
    if gs == [] then [] else gs[0] + Flatten(gs[1..])
  }

  /** The words of every chunk, in chunk order. */
  function WordsOf(chunks: seq<string>): seq<string> {
    if chunks == [] then [] else Split(chunks[0]) + WordsOf(chunks[1..])
  }

  /** The slices `words[i:i+k]` for `i` in `range(0, len(words), k)`. */
  function Groups(words: seq<string>, k: nat): seq<seq<string>>
    requires k > 0
    decreases |words|
  {
    if |words| == 0 then []
    else if |words| <= k then [words]
    else [words[..k]] + Groups(words[k..], k)
  }

  /** The groups partition `words`, in order, into non-empty groups of at
      most `k` words. */
  lemma {:induction false} GroupsPartition(words: seq<string>, k: nat)
    requires k > 0
    ensures Flatten(Groups(words, k)) == words
    ensures forall g | g in Groups(words, k) :: 1 <= |g| <= k
    decreases |words|
  {
    var gs := Groups(words, k);
    if |words| == 0 {
    } else if |words| <= k {
      assert Flatten([words]) == words + [];
    } else {
      GroupsPartition(words[k..], k);
      assert gs[1..] == Groups(words[k..], k);
      assert words == words[..k] + words[k..];
    }
  }

  /** Every slice but the last holds exactly `k` words: the slices start
      at 0, k, 2k, ... */
  lemma {:induction false} GroupsFull(words: seq<string>, k: nat)
    requires k > 0
    ensures forall j | 0 <= j < |Groups(words, k)| - 1 :: |Groups(words, k)[j]| == k
    decreases |words|
  {
    if |words| > k {
      GroupsFull(words[k..], k);
      assert Groups(words, k)[1..] == Groups(words[k..], k);
    }
  }

  /** `' '.join` applied to each group. */
  function JoinEach(gs: seq<seq<string>>): seq<string> {
    seq(|gs|, i requires 0 <= i < |gs| => Join(gs[i]))
  }

  /** The Python function. A zero step makes `range` raise `ValueError`; a
      negative step gives an empty range, hence no chunks. */
  function ChunkTextByWords(text: string, chunkSize: int): (r: Outcome<seq<string>>)
    ensures r.Raised? <==> chunkSize == 0
    ensures r.Ok? && (chunkSize < 0 || Blank(text)) ==> r.value == []
  {
    if chunkSize == 0 then Raised
    else if chunkSize < 0 then Ok([])
    else Ok(JoinEach(Groups(Split(text), chunkSize)))
  }

  lemma MulAtLeast(d: int, k: int)
    requires d >= 1 && k > 0
    ensures d * k >= k
  {
    assert d * k == (d - 1) * k + k;
  }

  /** Euclidean division is determined by quotient and remainder. */
  lemma DivUnique(a: int, k: int, q: int, m: int)
    requires k > 0 && 0 <= m < k && a == q * k + m
    ensures a / k == q
  {
    var q', m' := a / k, a % k;
    assert (q - q') * k == m' - m;
    if q - q' >= 1 {
      MulAtLeast(q - q', k);
    } else if q' - q >= 1 {
      MulAtLeast(q' - q, k);
    }
  }

  lemma CeilStep(n: nat, k: nat)
    requires k > 0 && n > k
    ensures (n + k - 1) / k == (n - k + k - 1) / k + 1
  {
    var a := n - 1;
    var q, m := a / k, a % k;
    assert a + k == (q + 1) * k + m;
    DivUnique(a + k, k, q + 1, m);
  }

  /** The number of groups is ceil(|words| / k). */
  lemma {:induction false} GroupCount(words: seq<string>, k: nat)
    requires k > 0
    ensures |Groups(words, k)| == (|words| + k - 1) / k
    decreases |words|
  {
    if |words| == 0 {
      DivUnique(k - 1, k, 0, k - 1);
    } else if |words| <= k {
      DivUnique(|words| + k - 1, k, 1, |words| - 1);
    } else {
      GroupCount(words[k..], k);
      CeilStep(|words|, k);
    }
  }

  /** Splitting each joined group gives the groups' words back, in order. */
  lemma {:induction false} WordsOfJoinEach(gs: seq<seq<string>>)
    requires forall g, w | g in gs && w in g :: IsWord(w)
    ensures WordsOf(JoinEach(gs)) == Flatten(gs)
    decreases |gs|
  {
    if gs != [] {
      SplitJoin(gs[0]);
      assert JoinEach(gs)[1..] == JoinEach(gs[1..]);
      WordsOfJoinEach(gs[1..]);
    }
  }

  /** What `chunk_text_by_words` promises for a positive chunk size: every
      chunk holds between 1 and `chunkSize` words separated by single
      spaces, every chunk but the last holds exactly `chunkSize`, and the
      chunks' words read in order are exactly `text.split()`. */
  lemma ChunksPartitionWords(text: string, chunkSize: int)
    requires chunkSize > 0
    ensures forall c | c in ChunkTextByWords(text, chunkSize).value :: 1 <= |Split(c)| <= chunkSize
    ensures forall c | c in ChunkTextByWords(text, chunkSize).value :: c == Join(Split(c))
    ensures forall j | 0 <= j < |ChunkTextByWords(text, chunkSize).value| - 1 ::
      |Split(ChunkTextByWords(text, chunkSize).value[j])| == chunkSize
    ensures WordsOf(ChunkTextByWords(text, chunkSize).value) == Split(text)
  {
    var words := Split(text);
    assert ChunkTextByWords(text, chunkSize).value == JoinEach(Groups(words, chunkSize));
    ChunkSizes(words, chunkSize);
    ChunkWords(words, chunkSize);
    ChunksFull(words, chunkSize);
  }

  /** The default call `chunk_text_by_words(text)` never raises and gives
      chunks of 1 to 100 single-space-separated words, exactly 100 in every
      chunk but the last, that together hold the text's words in order. */
  lemma DefaultChunking(text: string)
    ensures ChunkTextByWords(text, DefaultChunkSize).Ok?
    ensures forall c | c in ChunkTextByWords(text, DefaultChunkSize).value :: 1 <= |Split(c)| <= 100
    ensures forall c | c in ChunkTextByWords(text, DefaultChunkSize).value :: c == Join(Split(c))
    ensures forall j | 0 <= j < |ChunkTextByWords(text, DefaultChunkSize).value| - 1 ::
      |Split(ChunkTextByWords(text, DefaultChunkSize).value[j])| == 100
    ensures WordsOf(ChunkTextByWords(text, DefaultChunkSize).value) == Split(text)
  {
    ChunksPartitionWords(text, DefaultChunkSize);
  }

  /** For n words there are ceil(n / chunkSize) chunks. */
  lemma ChunksCount(text: string, chunkSize: int)
    requires chunkSize > 0
    ensures |ChunkTextByWords(text, chunkSize).value| == (|Split(text)| + chunkSize - 1) / chunkSize
  {
    var words := Split(text);
    assert ChunkTextByWords(text, chunkSize).value == JoinEach(Groups(words, chunkSize));
    GroupCount(words, chunkSize);
  }

  lemma ChunkSizes(words: seq<string>, k: nat)
    requires k > 0 && forall w | w in words :: IsWord(w)
    ensures forall c | c in JoinEach(Groups(words, k)) :: 1 <= |Split(c)| <= k && c == Join(Split(c))
  {
    GroupsPartition(words, k);
    GroupsAreWords(words, k);
    forall c | c in JoinEach(Groups(words, k)) ensures 1 <= |Split(c)| <= k && c == Join(Split(c)) {
      ChunkSize(Groups(words, k), k, c);
    }
  }

  lemma ChunkWords(words: seq<string>, k: nat)
    requires k > 0 && forall w | w in words :: IsWord(w)
    ensures WordsOf(JoinEach(Groups(words, k))) == words
  {
    GroupsPartition(words, k);
    GroupsAreWords(words, k);
    WordsOfJoinEach(Groups(words, k));
  }

  lemma ChunkSize(gs: seq<seq<string>>, k: nat, c: string)
    requires forall g, w | g in gs && w in g :: IsWord(w)
    requires forall g | g in gs :: 1 <= |g| <= k
    requires c in JoinEach(gs)
    ensures 1 <= |Split(c)| <= k
    ensures c == Join(Split(c))
  {
    var i :| 0 <= i < |gs| && c == Join(gs[i]);
    assert gs[i] in gs;
    SplitJoin(gs[i]);
  }

  lemma ChunksFull(words: seq<string>, k: nat)
    requires k > 0 && forall w | w in words :: IsWord(w)
    ensures forall j | 0 <= j < |JoinEach(Groups(words, k))| - 1 ::
      |Split(JoinEach(Groups(words, k))[j])| == k
  {
    var gs := Groups(words, k);
    GroupsFull(words, k);
    GroupsAreWords(words, k);
    forall j | 0 <= j < |JoinEach(gs)| - 1 ensures |Split(JoinEach(gs)[j])| == k {
      assert gs[j] in gs;
      SplitJoin(gs[j]);
    }
  }

  lemma GroupsAreWords(words: seq<string>, k: nat)
    requires k > 0 && forall w | w in words :: IsWord(w)
    ensures forall g, w | g in Groups(words, k) && w in g :: IsWord(w)
  {
    GroupsPartition(words, k);
    forall g, w | g in Groups(words, k) && w in g ensures IsWord(w) {
      FlattenHas(Groups(words, k), g, w);
    }
  }

  lemma {:induction false} FlattenHas(gs: seq<seq<string>>, g: seq<string>, w: string)
    requires g in gs && w in g
    ensures w in Flatten(gs)
    decreases |gs|
  {
    if g != gs[0] {
      FlattenHas(gs[1..], g, w);
    }
  }
}
