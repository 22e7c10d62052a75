# Tweet feeds to a trading recommendation

A Dafny model of the part of `crypto_quant_project` that turns fetched feed
items into one BUY / SELL / HOLD recommendation:

- **Feed-entry shaping.** `RssHubTwitterFetcher.fetch` maps RSSHub feed
  entries to tweet records. `ResourceFetcher.fetch_nitter_rss` fetches one
  Nitter RSS feed per username. `ResourceFetcher.fetch_reddit_posts` turns
  subreddit posts into items with a text of at most 250 characters.
  `ResourceFetcher.fetch_news` has a key guard. The constructor supplies the
  Nitter instance default.
- **Text aggregation.** `aggregate_twitter_content` puts the Nitter texts
  first and the RSSHub `title summary` texts second, then strips every text
  and drops the blank ones.
- **Prompt assembly.** A fixed Chinese instruction line that names the
  symbol, followed by the texts joined with newlines.
- **Signal decision.** `generate_signal_from_llm` gives HOLD for no texts
  without calling the analyzer, and HOLD for an absent reply or one without a
  `sentiment_score`. Otherwise the score is compared strictly against +0.2 and
  -0.2.

Every external call is a parameter of the model:

- the feed parser (`feedparser.parse`) is a function from URL to
  `Malformed | Entries(entries)`;
- the Reddit client is an optional function from subreddit and limit to a
  listing;
- the NewsAPI request is a function from the query to a response;
- the sentiment analyzer is a function from prompt to an optional JSON object.

Python's `str.strip()`, `"\n".join`, `str.split` and slicing are modelled on
strings as sequences of code points (module `Text`).

Points where the code behaves differently from what its comments and
names suggest, all modelled as the code runs:

- The code keeps no identity log and does no deduplication. The comment at
  main_twitter_llm.py:13 says "deduplicate", but line 14 only strips texts
  and drops blank ones.
- There is no polling loop and no per-symbol broadcast. `main` decides once,
  for the first symbol only.
- Not every source failure is isolated. An RSSHub entry without a `title` or
  `link` raises `AttributeError`, which `fetch` does not catch, so the whole
  aggregation fails. The model returns `Err(MissingEntryAttribute)` for this
  case.
- The same missing attribute in a Nitter entry is caught per user. That
  user keeps the records appended before the bad entry.
- `{score:.2f}` and `{confidence:.2f}` run before the comparison. A
  non-numeric score, or a non-numeric confidence, therefore raises instead of
  giving HOLD. The model returns `Err(UnformattableValue)` for this case.

"The analyzer is never called" is stated through `Decision.prompt`: it is
`None` exactly when no prompt was sent.

## Model

| member | source | states |
|---|---|---|
| `Text.TrimStart` | crypto_quant_project/main_twitter_llm.py:14 | the longest all-whitespace prefix is removed and nothing else |
| `Text.TrimEnd` | crypto_quant_project/main_twitter_llm.py:14 | the longest all-whitespace suffix is removed and nothing else |
| `Text.Trim` | crypto_quant_project/main_twitter_llm.py:14 | `strip()` result has no whitespace at either end, and it is empty exactly when the input is all whitespace |
| `Text.TrimIsInfix` | crypto_quant_project/main_twitter_llm.py:14 | `strip()` keeps a contiguous piece of the input and drops only whitespace around it |
| `Text.TrimIdempotent` | crypto_quant_project/main_twitter_llm.py:14 | stripping twice equals stripping once |
| `Text.Join` | crypto_quant_project/main_twitter_llm.py:24 | joining no texts gives the empty string, one text gives itself, and the result starts with the first text |
| `Text.SplitJoin` | crypto_quant_project/main_twitter_llm.py:24 | splitting on the separator gives back the joined texts when none contains it |
| `Text.SplitConcat` | crypto_quant_project/main_twitter_llm.py:24 | splitting `a`, separator, `b` gives the pieces of `a` followed by the pieces of `b` |
| `Text.SplitJoinEach` | crypto_quant_project/main_twitter_llm.py:24 | splitting a join on its separator gives the pieces of every joined text in order, whatever the texts contain |
| `Text.JoinSplit` | crypto_quant_project/main_twitter_llm.py:24 | joining the pieces of a string with the separator gives the string back |
| `Text.SplitInjective` | crypto_quant_project/main_twitter_llm.py:24 | two strings with the same pieces are equal |
| `Text.Truncate` | crypto_quant_project/core/resource_fetcher.py:92 | `s[:n]` is a prefix of `s`, at most `n` long, and exactly `n` long when `s` is longer |
| `RssHub.SliceTo` | crypto_quant_project/rsshub_twitter_fetcher.py:24 | Python `entries[:k]` is a prefix of length `min(k, n)`, or `max(0, n + k)` for negative `k` |
| `RssHub.Selected` | crypto_quant_project/rsshub_twitter_fetcher.py:24 | `max_items = None` keeps all entries, otherwise the slice `entries[:max_items]` |
| `RssHub.ToTweets` | crypto_quant_project/rsshub_twitter_fetcher.py:25-32 | succeeds iff every entry has a title and link; then one record per entry, in order, with title and url copied and summary and published defaulting to "" |
| `RssHub.Fetch` | crypto_quant_project/rsshub_twitter_fetcher.py:19-32 | a malformed (bozo) feed gives an empty list; otherwise the selected entries become records |
| `RssHub.FetchFirstItems` | crypto_quant_project/rsshub_twitter_fetcher.py:24-32 | with `max_items = k`, when the first `min(k, n)` entries have a title and link, the result is those entries in original order, whatever later entries hold |
| `RssHub.FetchAllItems` | crypto_quant_project/rsshub_twitter_fetcher.py:24-32 | with `max_items = None`, every entry is returned in order |
| `ResourceFetcher.NitterInstance` | crypto_quant_project/core/resource_fetcher.py:20-23 | the configured instance URL, and `https://nitter.net` when the section or the key is missing |
| `ResourceFetcher.NewsApiKey` | crypto_quant_project/core/resource_fetcher.py:13-16 | the key is present exactly when section `API` holds `NEWS_API_KEY` |
| `ResourceFetcher.NewsRequest` | crypto_quant_project/core/resource_fetcher.py:41-45 | no request when the key is missing, empty or `YOUR_NEWS_API_KEY`; otherwise the request carries the key and parameters |
| `ResourceFetcher.FetchNews` | crypto_quant_project/core/resource_fetcher.py:39-52 | empty for an unusable key or a failed request, otherwise the response's `articles` or empty |
| `ResourceFetcher.FetchNewsByDefault` | crypto_quant_project/core/resource_fetcher.py:39-52 | with the default arguments the request asks for English articles sorted by `publishedAt`, 20 per page |
| `ResourceFetcher.NitterUrlInjective` | crypto_quant_project/core/resource_fetcher.py:60 | the per-user URL `instance/username/rss` determines the untrimmed username |
| `ResourceFetcher.EntryItems` | crypto_quant_project/core/resource_fetcher.py:68-75 | one record per entry up to the first entry lacking a title or link, with text = title and url = link |
| `ResourceFetcher.UserItems` | crypto_quant_project/core/resource_fetcher.py:57-75 | a blank username or a malformed feed contributes nothing; otherwise the user's entries tagged `Twitter RSS (@username)` |
| `ResourceFetcher.FetchNitterRss` | crypto_quant_project/core/resource_fetcher.py:54-76 | every item is tagged with a non-blank username of the list |
| `ResourceFetcher.FetchNitterRssConcat` | crypto_quant_project/core/resource_fetcher.py:56-76 | the output is the concatenation of the users' contributions in username order |
| `ResourceFetcher.FetchNitterRssIsolation` | crypto_quant_project/core/resource_fetcher.py:61-75 | one user's contribution sits between the others', which do not depend on it |
| `ResourceFetcher.FetchNitterRssSkipsUser` | crypto_quant_project/core/resource_fetcher.py:57-66 | a blank username or a malformed feed adds nothing, and the remaining users are still processed |
| `ResourceFetcher.UserItemsAllEntries` | crypto_quant_project/core/resource_fetcher.py:68-73 | a well-formed feed gives exactly one `{source, text: title, url: link}` item per entry in feed order |
| `ResourceFetcher.PostText` | crypto_quant_project/core/resource_fetcher.py:92 | the post text is a prefix of `title - selftext`, at most 250 long, and is the whole string when that fits |
| `ResourceFetcher.PostItems` | crypto_quant_project/core/resource_fetcher.py:89-94 | one item per yielded post, in order, tagged with the subreddit, with the truncated text and the post url |
| `ResourceFetcher.SubredditItems` | crypto_quant_project/core/resource_fetcher.py:84-97 | every Reddit text is at most 250 characters |
| `ResourceFetcher.FetchRedditPosts` | crypto_quant_project/core/resource_fetcher.py:78-97 | no client or no subreddits gives an empty list; otherwise the first subreddit's posts come before the rest's; every text is at most 250 characters |
| `ResourceFetcher.FetchRedditPostsByDefault` | crypto_quant_project/core/resource_fetcher.py:78-97 | with the default `limit=5` each subreddit is asked for its five newest posts |
| `ResourceFetcher.SubredditItemsConcat` | crypto_quant_project/core/resource_fetcher.py:85-97 | the output is the concatenation of the subreddits' contributions in order |
| `ResourceFetcher.SubredditItemsIsolation` | crypto_quant_project/core/resource_fetcher.py:85-96 | one subreddit's contribution sits between the others', which do not depend on it |
| `ResourceFetcher.SubredditItemsSkip` | crypto_quant_project/core/resource_fetcher.py:85-96 | a subreddit that yields nothing leaves the other subreddits' items exactly as without it |
| `ResourceFetcher.FetchRedditPostsSkipsFailure` | crypto_quant_project/core/resource_fetcher.py:85-96 | a subreddit that fails before yielding adds nothing, and the others are still processed |
| `ResourceFetcher.RedditTextIsPrefix` | crypto_quant_project/core/resource_fetcher.py:90-93 | each item's text is a prefix of its post's `title - selftext`, and its url is the post url |
| `ResourceFetcher.FetchRsshubTwitter` | crypto_quant_project/core/resource_fetcher.py:99-101 | delegates to the RSSHub fetcher with the same URL and `max_items`: empty for a malformed feed, never more records than entries |
| `TwitterLlm.KeptIffNotBlank` | crypto_quant_project/main_twitter_llm.py:14 | `t and t.strip()` holds exactly when `t` has a non-whitespace character |
| `TwitterLlm.Clean` | crypto_quant_project/main_twitter_llm.py:14 | every kept text is non-empty and stripped, and there are no more of them than inputs |
| `TwitterLlm.CleanConcat` | crypto_quant_project/main_twitter_llm.py:8-14 | cleaning distributes over concatenation, so group order and in-group order are kept |
| `TwitterLlm.CleanMembership` | crypto_quant_project/main_twitter_llm.py:14 | a string is in the output iff it is the strip of some non-blank input |
| `TwitterLlm.CleanKeepsCleanTexts` | crypto_quant_project/main_twitter_llm.py:13-14 | already-stripped non-empty texts pass unchanged, duplicates included (no dedup) |
| `TwitterLlm.AggregateTwitterContent` | crypto_quant_project/main_twitter_llm.py:7-15 | cleaned Nitter texts then, only for a non-empty RSSHub URL, cleaned `title summary` texts; the RSSHub exception propagates unchanged |
| `TwitterLlm.AggregateBound` | crypto_quant_project/main_twitter_llm.py:7-15 | for every RSSHub setting (unset, empty or a URL), at most one output text per fetched item |
| `TwitterLlm.Prompt` | crypto_quant_project/main_twitter_llm.py:24 | the prompt starts with the fixed instruction line, and is just that line when there are no texts; the first text follows it directly; the lines after it are the lines of every text in order, which are the texts themselves when none holds a newline |
| `TwitterLlm.JoinLinesSplit` | crypto_quant_project/main_twitter_llm.py:24 | newline-joined texts split into the lines of every text in order, and back into the texts when none holds a newline |
| `TwitterLlm.PromptDeterminedByLines` | crypto_quant_project/main_twitter_llm.py:24 | a string that starts with the instruction line and whose remaining lines are the texts' lines is exactly the prompt |
| `TwitterLlm.ScoreSignal` | crypto_quant_project/main_twitter_llm.py:32-37 | BUY iff score > 0.2, SELL iff score < -0.2, HOLD iff -0.2 <= score <= 0.2 |
| `TwitterLlm.ScoreSignalMonotone` | crypto_quant_project/main_twitter_llm.py:32-37 | a higher score never gives a more bearish signal |
| `TwitterLlm.ScoreSignalBoundaries` | crypto_quant_project/main_twitter_llm.py:32-37 | exactly 0.2 and exactly -0.2 give HOLD; 0.2001 gives BUY and -0.2001 gives SELL |
| `TwitterLlm.GenerateSignalFromLlm` | crypto_quant_project/main_twitter_llm.py:17-37 | no texts give HOLD with no prompt sent; a missing reply or score gives HOLD; otherwise the threshold rule, or an error when the score line cannot be formatted |
| `TwitterLlm.ConfidenceIgnored` | crypto_quant_project/main_twitter_llm.py:30-31 | replies with the same score give the same decision whatever their numeric (or missing) confidence |
| `TwitterLlm.GenerateSignalMonotone` | crypto_quant_project/main_twitter_llm.py:30-37 | a higher reply score never gives a more bearish recommendation |
| `TwitterLlm.Recommend` | crypto_quant_project/main_twitter_llm.py:44-53 | aggregation errors propagate, otherwise the decision for the aggregated texts; HOLD whenever no prompt was sent |
| `TwitterLlm.NitterAllMalformed` | crypto_quant_project/core/resource_fetcher.py:63-66 | when every feed is malformed, Nitter yields nothing |
| `TwitterLlm.RecommendFailSafe` | crypto_quant_project/main_twitter_llm.py:21-23 | when every feed is malformed, the result is HOLD and the analyzer is not called |

## Left out

- Network and parsing: `feedparser.parse`, `requests.get`, `praw` and the DeepSeek/OpenAI call are inputs of the model, as described above.
- Console output: every `print`, and the prompt preview at main_twitter_llm.py:25, produce no value.
- core/llm_analyzer.py is not part of this model. It wraps the network call and turns any exception into `None`, which is the `None` reply here.
- Reading configuration: `main` reads `config.ini` and splits `TWITTER_USERNAMES` and `SYMBOLS`. `Recommend` takes the instance, usernames and symbol already read.
- `configparser` details: keys are case-insensitive and a `DEFAULT` section exists. Keys are matched literally in the model.
- Reddit client construction (core/resource_fetcher.py:25-37): the client is an optional input.
- SubredditItems: the posts come from the listing the client yields. The model does not assume praw yields at most `limit` of them.
- A JSON reply that is not an object (a list, a string): the analyzer is assumed to return an object.
- A NewsAPI body that is not an object: also assumed to be an object.
- Floating point: the score is a `real`. NaN and infinities are not modelled.
- The `__main__` demonstration blocks of each file.
- tests/test_core.py and tests/test_rss.py are not part of this model. They test other modules and a browser scraper.
- Not modelled because the code has none of it: the identity log, deduplication against earlier cycles, the polling scheduler and per-symbol signals.
