# Online post clustering, modelled in Dafny

This project models `PostClusterer` from `server/app/clustering.py`. The
clusterer groups incoming aggregator posts into clusters ("stories"). It keeps a
store of clusters keyed by 1-based integer ids. Each record holds:

- the representative post's id and title;
- its normalised text and link domain;
- its creation time;
- a post count.

For each incoming post the clusterer does one of two things. It finds the
cluster the post belongs to, in which case the caller counts the post into that
cluster. Otherwise the caller opens a new cluster with the post as its
representative.

The model has five parts, one Dafny module each, plus a small `Wrappers` module
holding `Option`:

- `Normalize`: `preprocess_text`. The title is written twice, followed by the
  body. Then a chain of substitutions removes `[...]` and `(...)` spans, removes
  `http…` runs, removes punctuation, collapses and trims whitespace, and
  lower-cases. The span, URL and whitespace substitutions are recursive
  functions with their exact match rules: lazy `.*?` that does not cross a line
  feed, greedy `\S+`, and maximal `\s+` runs. The `[^\w\s]` substitution and
  `lower()` are character-by-character maps. `\s` and `\w` are over ASCII.
- `WordSplit`: `str.split()` and `' '.join`. It proves that the whitespace step
  `re.sub(r'\s+', ' ', text).strip()` equals `' '.join(text.split())`, and it
  works the bracketed example of the preprocessing test through the whole chain.
- `LinkDomain`: `extract_domain`. It returns no domain for an empty link or for a
  link mentioning `reddit.com`. Otherwise it returns the network location under
  `urllib.parse.urlsplit`'s rules as in Python 3.11 and later (a scheme starts
  with an ASCII letter and has only scheme characters; then `//`; the first `/`,
  `?` or `#`; unbalanced brackets raising), with every `www.` deleted.
- `Overlap`: `_quick_keyword_overlap`, the Jaccard index of the word sets, kept
  as an exact fraction. The 0.3 cut-off is written as `num * 10 < den * 3`.
- `Clustering`: the staleness rule (strictly older than 24 hours) and the scoring
  of one cluster on the text path. It also holds:
  - the store, as class `PostClusterer` with a `map<int, Cluster>` field, and
    the methods `FindSimilarCluster`, `CreateCluster` and `AddToCluster`;
  - `Process`, the find-then-add-or-create step that the driver scripts run per
    post, and `ProcessAll`, which runs it over a sequence.

The loop of `find_similar_cluster` is an imperative `for` loop. It is proved
equal to the function `FindIn`, which works in two steps:

1. `FirstShortcut` is the first live cluster with the post's non-empty,
   non-social domain.
2. Failing that, `FirstMax` is the first id with the highest score. Score is
   defined by `Score`: None for stale clusters, for pairs under the pre-filter
   and when the similarity raises; otherwise the similarity, kept only when it is
   above the threshold and above 0.

The lemmas then characterise `FindIn`: the shortcut, arg-max with earliest tie,
rejection, emptiness, and threshold monotonicity.

The clock and the similarity take whatever value the caller supplies. The clock
is a `now` parameter, holding integer microseconds. The TF-IDF cosine similarity
is an oracle `sim(cluster text, post text): Option<real>`, where None stands for
the `except: continue` path.

The model follows the code at these points, where a reader might expect something else:

- A cluster exactly 24 hours old is still live, because the code compares with
  a strict `>` (see `Clustering.StaleBoundary`).
- The default threshold is 0.8 (server/app/clustering.py:10), although the
  tuning scripts try values from 0.1 to 0.8; the threshold is a constructor
  parameter here.
- The 0.3 pre-filter cut-off and the social domains (`twitter.com`,
  `youtube.com`) are fixed constants in the code.
- "Same domain always lands in the same group" holds in at least these three
  cases:
  - no older cluster takes the domain shortcut at the second post's time
    (`Clustering.SameDomainJoins`);
  - the first post went through the find-then-create step, found nothing and so
    opened the cluster, and the second post arrives no earlier and within 24
    hours (`Clustering.OpenedClusterJoins`);
  - the first post joined a cluster through the domain shortcut, and the second
    arrives no earlier, while that cluster is still live
    (`Clustering.ShortcutClusterKeeps`).

  An older live cluster of the same domain can take the second post instead.
  That needs the first post's cluster to have been opened directly by
  `create_cluster`, as the duplicate-link test does, or the second post to be
  dated before the first.
- Synonym folding, event-type boosts, keyword bonuses and body truncation do not
  occur in the code, and are not modelled.

## Model

| member | source | states |
|---|---|---|
| Normalize.IsSpace | server/app/clustering.py:29-31 | ASCII `\s`, the whitespace of `str.split()` and `str.strip()`: space, 9–13 and 28–31 |
| Normalize.IsWordChar | server/app/clustering.py:30 | ASCII `\w`: letters, digits and `_` |
| Normalize.ToLower | server/app/clustering.py:33 | the result is never upper-case, keeps word-character-ness and the space, and leaves non-upper characters alone |
| Normalize.FindClose | server/app/clustering.py:27-28 | the lazy `.*?` stop is the first closing character with no line feed before it; None exactly when every closing character has a line feed before it |
| Normalize.FindCloseAt | server/app/clustering.py:27-28 | with no closing character or line feed in m, the lazy match of m + close stops exactly at that closing character |
| Normalize.StripSpans | server/app/clustering.py:27-28 | span removal never lengthens the text; StripSpansSpan gives a closed span, StripSpansUnclosed an opener left open, and StripSpansKeepPrefix and StripSpansKeeps the text without openers |
| Normalize.StripSpansSpan | server/app/clustering.py:27-28 | a span from an opener to the first closer, with no line feed inside, is deleted with both delimiters; the text before it is kept and removal goes on after it |
| Normalize.StripSpansUnclosed | server/app/clustering.py:27-28 | an opener with no closer before the next line feed or the end is kept, and removal goes on after it |
| Normalize.StripSpansKeepPrefix | server/app/clustering.py:27-28 | a prefix without openers is kept as it is, whatever follows it |
| Normalize.StripSpansKeeps | server/app/clustering.py:27-28 | a text with no opening bracket or parenthesis is unchanged by span removal |
| Normalize.NonSpaceRun | server/app/clustering.py:29 | the greedy `\S*` run is whitespace-free and stops at the end or at whitespace |
| Normalize.StripUrls | server/app/clustering.py:29 | URL removal never lengthens the text; StripUrlsToken and StripUrlsInToken give a URL at the start and inside a token, BareHttpKept a bare "http", and StripUrlsKeeps, StripUrlsAfterPrefix and StripUrlsSplit the text around URLs |
| Normalize.StripUrlsKeeps | server/app/clustering.py:29 | a text with no "http" is unchanged by URL removal |
| Normalize.StripUrlsSplit | server/app/clustering.py:29 | URL removal distributes over a split after whitespace: a match never crosses whitespace |
| Normalize.StripUrlsAfterPrefix | server/app/clustering.py:29 | a prefix at none of whose positions "http" starts is kept, even with no whitespace after it |
| Normalize.StripUrlsInToken | server/app/clustering.py:29 | a URL inside a token is deleted from its "http" on, and the characters before it in the token stay |
| Normalize.BareHttpKept | server/app/clustering.py:29 | "http" followed by whitespace or the end is no match, because `\S+` needs a character, and is kept |
| Normalize.StripUrlsSeeExample | server/app/clustering.py:29 | "see:http://x" becomes "see:" |
| Normalize.StripUrlsToken | server/app/clustering.py:29 | a whitespace-free token starting with "http" and at least one more character vanishes whole |
| Normalize.ReplacePunctuation | server/app/clustering.py:30 | length kept, every word character and whitespace character stays where it is, and every other character becomes a plain space |
| Normalize.ReplacePunctuationConcat | server/app/clustering.py:30 | the punctuation substitution acts on each part of a concatenation separately |
| Normalize.TrimLeft | server/app/clustering.py:31 | the result is a suffix of the input that does not start with whitespace |
| Normalize.TrimLeftSpaces | server/app/clustering.py:31 | everything `lstrip` removes is whitespace |
| Normalize.TrimRight | server/app/clustering.py:31 | the result is a prefix of the input that does not end with whitespace; TrimRightSpaces proves only whitespace was removed |
| Normalize.TrimRightSpaces | server/app/clustering.py:31 | everything `rstrip` removes is whitespace |
| Normalize.CollapseSpaces | server/app/clustering.py:31 | collapsing never lengthens the text; what it gives is stated by CollapseShape and WordSplit.CollapseStripIsJoin |
| Normalize.CollapseShape | server/app/clustering.py:31 | after collapsing, the plain space is the only whitespace and never doubles; a leading space appears exactly when the input starts with whitespace; a text of word characters and whitespace stays one of word characters and spaces |
| Normalize.CollapseSpacing | server/app/clustering.py:31 | after collapsing, the plain space is the only whitespace and never doubles, and a leading space appears exactly when the input starts with whitespace |
| Normalize.CollapseClean | server/app/clustering.py:31 | collapsing a text of word characters and whitespace gives one of word characters and plain spaces |
| Normalize.CollapseSplit | server/app/clustering.py:31 | collapsing distributes over a split after a non-space character |
| Normalize.CollapseIdentity | server/app/clustering.py:31 | collapsing leaves a single-spaced text unchanged |
| Normalize.Strip | server/app/clustering.py:31 | the result neither starts nor ends with whitespace, and a text already like that is unchanged; StripEnds and StripSpaces prove that only whitespace at the ends is removed |
| Normalize.StripEnds | server/app/clustering.py:31 | `strip` keeps one slice of its input: the one that starts where the leading whitespace ends |
| Normalize.StripSpaces | server/app/clustering.py:31 | everything `strip` removes, before and after the slice it keeps, is whitespace |
| Normalize.Lower | server/app/clustering.py:33 | same length, each character lower-cased |
| Normalize.LowerConcat | server/app/clustering.py:33 | lower-casing distributes over concatenation |
| Normalize.Clean | server/app/clustering.py:27-33 | the substitution chain always yields normal form: lower-case word characters and single spaces, no space at either end |
| Normalize.Preprocess | server/app/clustering.py:21-33 | `preprocess_text(title, content)` yields normal form for every input |
| Normalize.CleanFixesNormalForm | server/app/clustering.py:27-33 | a normal-form text without "http" is a fixed point of the chain |
| Normalize.CleanPlainWord | server/app/clustering.py:27-33 | a single word without "http" is only lower-cased |
| Normalize.CleanNotIdempotent | server/app/clustering.py:29-33 | the chain is not idempotent: "HTTPS" becomes "https" and a second pass removes it |
| Normalize.NoHttpAroundSpaces | server/app/clustering.py:29 | padding a text without "http" with spaces creates no "http" |
| Normalize.UrlStage | server/app/clustering.py:24-29 | in "w u w u " the URL token u is removed twice and the words stay |
| Normalize.CollapseStage | server/app/clustering.py:31 | the double spaces left by URL removal collapse to single ones |
| Normalize.StripStage | server/app/clustering.py:31 | the trailing space goes |
| Normalize.PreprocessDropsTrailingUrl | server/app/clustering.py:21-33 | a title of plain words followed by one URL normalises to its lower-cased words written twice |
| Normalize.PreprocessTeslaExample | server/tests/test_clustering.py:112-129 | "Tesla announces new Model Y http://example.com" normalises to "tesla announces new model y tesla announces new model y", so it contains tesla/announces/new/model |
| Normalize.TeslaLowered | server/app/clustering.py:33 | lower-casing the doubled sample title gives the doubled lower-case title |
| Normalize.DoubledTitleSpans | server/app/clustering.py:24-28 | in the doubled title of a[m1]b(m2), both spans vanish from both copies and the rest is kept, giving "ab ab " |
| Normalize.PreprocessDropsSpans | server/app/clustering.py:21-33 | a title a[m1]b(m2) normalises exactly like the title ab |
| WordSplit.Words | server/app/clustering.py:97-98 | every word of `split()` is non-empty and free of whitespace |
| WordSplit.WordsEmpty | server/app/clustering.py:97-101 | `split()` is empty exactly when the text is all whitespace |
| WordSplit.WordsCons | server/app/clustering.py:97-98 | a word followed by nothing or by whitespace is split off whole as the first word |
| WordSplit.WordsTrimLeft | server/app/clustering.py:97-98 | leading whitespace contributes no word |
| WordSplit.WordsSplit | server/app/clustering.py:97-98 | when whitespace separates a and b, the words of a + b are the words of a followed by those of b |
| WordSplit.WordsOfWord | server/app/clustering.py:97-98 | a non-empty, whitespace-free text is one word |
| WordSplit.JoinConcat | server/app/clustering.py:31 | joining two non-empty word lists puts exactly one space between their joins |
| WordSplit.JoinEnds | server/app/clustering.py:31 | joined words are empty only for no words, and otherwise neither start nor end with whitespace |
| WordSplit.CollapseWords | server/app/clustering.py:31 | collapsing a text that does not start with whitespace gives its words joined by single spaces, plus one space when the text ends with whitespace |
| WordSplit.CollapseStripIsJoin | server/app/clustering.py:31 | `re.sub(r'\s+', ' ', s).strip()` equals `' '.join(s.split())`: every whitespace run becomes one space, the ends go, and the other characters stay in order |
| WordSplit.CleanIsJoinedWords | server/app/clustering.py:27-33 | the normalised text is the lower-cased words, joined by single spaces, of the text left once spans, URLs and punctuation are gone |
| WordSplit.PreprocessTitleWords | server/app/clustering.py:21-33 | a title with no span opener and no "http" normalises to its punctuation-free words written twice, joined by single spaces and lower-cased |
| WordSplit.PreprocessBreakingExample | server/tests/test_clustering.py:119-129 | "Breaking: Major [UPDATE] earthquake hits Japan (7.2 magnitude)" normalises to "breaking major earthquake hits japan breaking major earthquake hits japan", so it contains earthquake and japan |
| LinkDomain.FirstIndex | server/app/clustering.py:46 | `find`: a found index holds the character and nothing before it does; None exactly when the character is absent |
| LinkDomain.Contains | server/app/clustering.py:41 | Python's `pat in s`; ContainsIff characterises it as an occurrence at some index |
| LinkDomain.AfterScheme | server/app/clustering.py:46 | what `urlsplit` reads after taking off a valid scheme is no longer than the link |
| LinkDomain.AuthorityLength | server/app/clustering.py:46 | the network location runs to the first `/`, `?` or `#`, or to the end |
| LinkDomain.Netloc | server/app/clustering.py:46 | a network location never holds a path, query or fragment separator |
| LinkDomain.RemoveWww | server/app/clustering.py:47 | deleting "www." never lengthens the text or adds characters |
| LinkDomain.ExtractDomain | server/app/clustering.py:35-49 | no domain for an empty link or one containing "reddit.com"; any domain is free of separators |
| LinkDomain.RemoveWwwAbsent | server/app/clustering.py:47 | with no "www." in it, the host is unchanged |
| LinkDomain.ExtractDomainStripsWww | server/app/clustering.py:41-47 | a network location "www." + d, with no "www." in d, gives domain d |
| LinkDomain.ExtractDomainPlain | server/app/clustering.py:41-47 | a network location without "www." is the domain itself |
| LinkDomain.NetlocOfUrl | server/app/clustering.py:46 | scheme + "://" + host + tail has network location host, for a bracket- and separator-free host |
| LinkDomain.ExtractDomainNewsExample | server/app/clustering.py:35-47 | "https://news.example.com/story" has domain "news.example.com" |
| LinkDomain.ContainsIff | server/app/clustering.py:41 | `pat in s` holds exactly when pat occurs at some index of s |
| LinkDomain.MissingPairAbsent | server/app/clustering.py:41 | a pattern with two adjacent characters that never appear side by side in s is not in s |
| Overlap.KeywordOverlap | server/app/clustering.py:95-106 | the index is a fraction in [0, 1], non-zero exactly when the word sets meet |
| Overlap.TokenSet | server/app/clustering.py:97-101 | every member of `set(s.split())` is a word, and the set is empty exactly for an all-whitespace text |
| Overlap.BelowPrefilter | server/app/clustering.py:78 | the comparison `overlap < 0.3`, on the exact fraction; BelowPrefilterIsRealComparison proves it is the real-number comparison |
| Overlap.BelowPrefilterIsRealComparison | server/app/clustering.py:78 | `num * 10 < den * 3` is the comparison of num / den with 0.3 |
| Overlap.KeywordOverlapSymmetric | server/app/clustering.py:97-106 | the overlap does not depend on argument order |
| Overlap.KeywordOverlapFull | server/app/clustering.py:100-106 | the overlap is 1 exactly when both texts have the same non-empty word set |
| Overlap.BlankTextBelowPrefilter | server/app/clustering.py:95-101 | a text without words has overlap 0 and never passes the pre-filter |
| Overlap.SameWordsPassPrefilter | server/app/clustering.py:95-106 | texts with the same non-empty word set always pass the pre-filter |
| Clustering.PostText | server/app/clustering.py:57 | a post's text is in normal form |
| Clustering.PostDomain | server/app/clustering.py:58 | `extract_domain(post.get('url', ''))`; a post without a link has no domain |
| Clustering.NewCluster | server/app/clustering.py:117-127 | the record `create_cluster` stores is live when created, counts one post and holds normalised text |
| Clustering.Bump | server/app/clustering.py:134 | `post_count += 1` on one record; SumCountsBump proves the total grows by one |
| Clustering.IsStale | server/app/clustering.py:108-111 | strictly older than 24 hours; StaleBoundary, NewClusterLive and StaleStays state its properties |
| Clustering.PassesPrefilter | server/app/clustering.py:78 | the pair passes when the overlap is not below 0.3; BlankTextBelowPrefilter and SameWordsPassPrefilter state when |
| Clustering.ShortcutHit | server/app/clustering.py:66-72 | a live cluster with the post's non-empty, non-social domain; FindTakesFirstShortcut proves the first one wins |
| Clustering.Score | server/app/clustering.py:64-91 | a score exists only for a live cluster that passed the pre-filter; it is the similarity, above the threshold and above 0 |
| Clustering.FirstShortcut | server/app/clustering.py:64-72 | the first id in 1..n whose live cluster has the post's non-empty, non-social domain; None exactly when there is none |
| Clustering.FirstMax | server/app/clustering.py:60-89 | the running best is an id in 1..n that has a score |
| Clustering.FindIn | server/app/clustering.py:60-93 | the loop's result is a stored, live cluster |
| Clustering.FindSpec | server/app/clustering.py:51-93 | nothing on an empty store; any result is a stored, live cluster |
| Clustering.PostClusterer.constructor | server/app/clustering.py:10-19 | the store starts empty and valid, with no posts, and with the given threshold |
| Clustering.PostClusterer.FindSimilarCluster | server/app/clustering.py:51-93 | returns exactly `FindSpec` of the store and changes nothing |
| Clustering.PostClusterer.ScanClusters | server/app/clustering.py:60-93 | the loop in id order, with its `continue`s and early return, returns exactly `FindIn` |
| Clustering.PostClusterer.CreateCluster | server/app/clustering.py:113-129 | returns size + 1, a fresh id; stores that post's record under it; leaves every other cluster; keeps the ids 1..size; adds one post |
| Clustering.PostClusterer.AddToCluster | server/app/clustering.py:131-134 | a stored id gets post count + 1 and nothing else changes; an unknown id changes nothing; the total grows by one exactly when the id is stored |
| Clustering.PostClusterer.Process | server/test_improved_clustering.py:31-41 | a match is counted into the found cluster; otherwise a new cluster is opened at size + 1; the total grows by one; the returned id is stored; no id is lost; the new store and id are those of `Step` |
| Clustering.PostClusterer.ProcessAll | server/test_improved_clustering.py:28-41 | the final store and every returned id are those of `Run`, one `Process` step per post in order; the total has grown by n, every returned id is stored, and at most n clusters are new |
| Clustering.Step | server/test_improved_clustering.py:31-41 | one find-then-add-or-create step keeps the store dense, keeps every id, adds at most one cluster, and the returned id is stored |
| Clustering.Run | server/test_improved_clustering.py:28-41 | the steps for the posts in order: the store stays dense, keeps every id, grows by at most one cluster per post, and every returned id is stored |
| Clustering.RunSnoc | server/test_improved_clustering.py:28-41 | running one more post is one more step after the run so far |
| Clustering.DenseInsert | server/app/clustering.py:115-127 | storing under size + 1 overwrites nothing and keeps the ids 1..size + 1 |
| Clustering.SumCountsInsert | server/app/clustering.py:120-127 | a new record adds its post count to the total |
| Clustering.SumCountsBump | server/app/clustering.py:133-134 | counting a post into a cluster adds one to the total |
| Clustering.PostsAtLeastClusters | server/app/clustering.py:120-134 | a valid store counts at least as many posts as it has clusters |
| Clustering.FindTakesFirstShortcut | server/app/clustering.py:64-72 | when some live cluster has the post's domain, the result is the first such cluster, whatever the texts, similarities or threshold |
| Clustering.SameDomainJoins | server/app/clustering.py:64-72 | a post with the same non-empty, non-social domain as the newest cluster's post, arriving within 24 hours, joins a cluster of that domain, and exactly the newest one when no older cluster takes the shortcut for that domain |
| Clustering.DuplicateLinkJoins | server/tests/test_clustering.py:84-100 | two posts with the same example link, https://news.example.com/story: the second joins a cluster of domain news.example.com, and exactly the one the first opened when no older cluster takes the shortcut for it |
| Clustering.ShortcutClusterKeeps | server/app/clustering.py:64-72 | when the first post joined cluster k through the domain shortcut, a later post with the same domain joins k too while k stays live, whatever the similarities and thresholds |
| Clustering.FirstShortcutKeeps | server/app/clustering.py:64-72 | after a bump the first shortcut cluster stays first for a later time at which it is still live |
| Clustering.OpenedClusterJoins | server/app/clustering.py:64-72 | when the first post found no cluster and opened one, a later post with the same non-empty, non-social domain within 24 hours joins exactly that cluster |
| Clustering.FirstMaxCharacterized | server/app/clustering.py:60-89 | the running best is none exactly when no id has a score; otherwise it is maximal, and every earlier id scores strictly lower |
| Clustering.FirstMaxFiltered | server/app/clustering.py:87 | dropping scores not above t keeps the running best or leaves none |
| Clustering.FindByText | server/app/clustering.py:77-93 | a text-path result is live, passed the pre-filter, has a similarity above the threshold and 0, is maximal, and is the earliest maximum |
| Clustering.RejectedNotChosen | server/app/clustering.py:77-91 | a cluster below the pre-filter, or whose similarity raises, is returned only through the domain shortcut |
| Clustering.FindNone | server/app/clustering.py:53-93 | nothing is found exactly when no stored cluster takes the shortcut and none has a score |
| Clustering.ScoreThreshold | server/app/clustering.py:87 | a score under a higher threshold is the same score under a lower one, and conversely above the higher one |
| Clustering.ThresholdMonotone | server/app/clustering.py:87-89 | raising the threshold gives the same cluster or none |
| Clustering.StaleBoundary | server/app/clustering.py:108-111 | a cluster exactly 24 hours old is live; one microsecond older, it is stale |
| Clustering.NewClusterLive | server/app/clustering.py:108-111 | a new cluster stays live for posts arriving within 24 hours |
| Clustering.StaleStays | server/app/clustering.py:108-111 | once stale, always stale |

## Left out

- The TF-IDF vectoriser and cosine similarity (sklearn). They are a foreign
  library computing in floating point, so the similarity is the oracle `sim`.
  The code refits the vectoriser on each (cluster text, post text) pair, so the
  score depends on that pair only, which an oracle on the pair captures.
- Floating point:
  - Similarities are exact reals.
  - The keyword overlap is an exact fraction. Its comparison with 0.3 agrees
    with the double-precision one for all realistic word counts.
- `os.getenv('SIMILARITY_THRESHOLD')` (environment I/O): the threshold is a
  constructor parameter.
- `datetime.utcnow()`: the time is a `now` parameter, in integer microseconds,
  which is the resolution of `timedelta`. The model uses one `now` for the whole
  step. The code reads the clock again for every cluster it checks for staleness
  (server/app/clustering.py:110) and once more when it creates a cluster (:124),
  so the instants can differ by the time the step takes.
- Unicode: `\w`, `\s` and `lower()` are restricted to ASCII.
- `urlsplit` details that are not part of this model:
  - stripping of leading control characters and spaces;
  - deletion of tab and newline characters inside the link;
  - lower-casing of the scheme, which does not affect the network location;
  - the validity check of a bracketed IPv6 host;
  - the NFKC check of a non-ASCII network location (`_checknetloc`), which can
    raise `ValueError`; the model covers ASCII links only.
- The unused `post_vectors` field.
- The `KeyError`s for a post without `id` or `title`: the `Post` type always has
  both.
- A `content` key present with value `None`, which Python formats as the text
  "None": an absent body is `None` in the model and reads as "".
- Python dict iteration order: the store's ids are always 1..size, inserted in
  order, so iteration is the id order 1..size that the loop uses.
- The driver's `if match:` test: every id is at least 1, so it is `found.Some?`.
- PostClusterer.ScanClusters: it takes the keyword pre-filter as a parameter,
  and its contract holds for any pre-filter. `FindSimilarCluster` passes it
  `PassesPrefilter`, the source's 0.3 overlap test.
- `server/app/reddit_client.py`, `server/app/models.py`, the sample-data loader
  and the print-driven harnesses are not modelled. Only the find-then-create
  step of the driver scripts is, as `PostClusterer.Process`.
