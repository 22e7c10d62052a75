/** `ResourceFetcher` (core/resource_fetcher.py): configuration defaults,
    the NewsAPI key guard, per-user Nitter RSS fetching and Reddit posts.
    Every network call is a parameter: the feed parser, the Reddit client
    and the NewsAPI responder. */
module ResourceFetcher {
  import opened Common
  import opened Text
  import opened Feed
  import RssHub

  /** An INI configuration as `configparser` reads it: section -> key -> value. */
  type Config = map<string, map<string, string>>

  /** The record both the Nitter and the Reddit fetchers emit. */
  datatype Item = Item(source: string, text: string, url: string)

  // ---------------------------------------------------------------------------
  // Configuration read by the constructor

  const DefaultNitterInstance: string := "https://nitter.net"

  /** The Nitter base URL: the configured `NITTER_INSTANCE_URL` of section
      `Nitter`, and the public instance whenever that is not configured. */
  function NitterInstance(config: Config): (r: string)
    ensures "Nitter" in config && "NITTER_INSTANCE_URL" in config["Nitter"] ==>
      r == config["Nitter"]["NITTER_INSTANCE_URL"]
    ensures !("Nitter" in config && "NITTER_INSTANCE_URL" in config["Nitter"]) ==>
      r == DefaultNitterInstance
  {
    if "Nitter" in config then
      var section := config["Nitter"];
      if "NITTER_INSTANCE_URL" in section then section["NITTER_INSTANCE_URL"] else DefaultNitterInstance
    else DefaultNitterInstance
  }

  /** The NewsAPI key: `NEWS_API_KEY` of section `API`, or absent. */
  function NewsApiKey(config: Config): (r: Option<string>)
    ensures r.Some? <==> "API" in config && "NEWS_API_KEY" in config["API"]
    ensures r.Some? ==> r.value == config["API"]["NEWS_API_KEY"]
  {
    if "API" in config && "NEWS_API_KEY" in config["API"] then Some(config["API"]["NEWS_API_KEY"]) else None
  }

  // ---------------------------------------------------------------------------
  // fetch_news

  const NewsBaseUrl: string := "https://newsapi.org/v2/everything"
  const PlaceholderNewsKey: string := "YOUR_NEWS_API_KEY"
  const DefaultNewsLanguage: string := "en"
  const DefaultNewsSortBy: string := "publishedAt"
  const DefaultNewsPageSize: int := 20

  /** The GET request `fetch_news` sends: base URL and query parameters. */
  datatype NewsQuery = NewsQuery(url: string, q: string, apiKey: string, language: string, sortBy: string, pageSize: int)

  /** What the request produced: a `RequestException` (transport error, HTTP
      error status, undecodable body), or a JSON object whose `articles`
      member may be missing. */
  datatype NewsResponse<A> = RequestFailed | Body(articles: Option<seq<A>>)

  /** Python truthiness of the key, and not the placeholder. */
  predicate UsableNewsKey(apiKey: Option<string>) {
    apiKey.Some? && apiKey.value != "" && apiKey.value != PlaceholderNewsKey
  }

  /** The request `fetch_news` would make; `None` means it makes none. */
  function NewsRequest(apiKey: Option<string>, keywords: string, language: string, sortBy: string, pageSize: int): (r: Option<NewsQuery>)
    ensures r.None? <==> apiKey.None? || apiKey.value == "" || apiKey.value == PlaceholderNewsKey
    ensures r.Some? ==> r.value == NewsQuery(NewsBaseUrl, keywords, apiKey.value, language, sortBy, pageSize)
  {
    if UsableNewsKey(apiKey) then Some(NewsQuery(NewsBaseUrl, keywords, apiKey.value, language, sortBy, pageSize))
    else None
  }

  /** `fetch_news`: the response's articles, and nothing when the key is
      unusable or the request fails. */
  function FetchNews<A>(apiKey: Option<string>, keywords: string, language: string, sortBy: string, pageSize: int,
                        get: NewsQuery -> NewsResponse<A>): (r: seq<A>)
    ensures !UsableNewsKey(apiKey) ==> r == []
    ensures UsableNewsKey(apiKey) ==>
      var response := get(NewsQuery(NewsBaseUrl, keywords, apiKey.value, language, sortBy, pageSize));
      r == (if response.Body? then response.articles.ValueOr([]) else [])
  {
    match NewsRequest(apiKey, keywords, language, sortBy, pageSize)
    case None => []
    case Some(query) =>
      match get(query)
      case RequestFailed => []
      case Body(articles) => articles.ValueOr([])
  }

  /** `fetch_news(keywords)` with its default arguments: English articles,
      newest first, twenty per page. */
  function FetchNewsByDefault<A>(apiKey: Option<string>, keywords: string, get: NewsQuery -> NewsResponse<A>): (r: seq<A>)
    ensures !UsableNewsKey(apiKey) ==> r == []
    ensures UsableNewsKey(apiKey) ==>
      var response := get(NewsQuery(NewsBaseUrl, keywords, apiKey.value, "en", "publishedAt", 20));
      r == (if response.Body? then response.articles.ValueOr([]) else [])
  {
    FetchNews(apiKey, keywords, DefaultNewsLanguage, DefaultNewsSortBy, DefaultNewsPageSize, get)
  }

  // ---------------------------------------------------------------------------
  // fetch_nitter_rss

  function NitterUrl(instance: string, username: string): string {
    instance + "/" + username + "/rss"
  }

  function NitterLabel(username: string): string {
    "Twitter RSS (@" + username + ")"
  }

  /** Distinct users are fetched from distinct URLs: the URL determines the
      (untrimmed) username. */
  lemma NitterUrlInjective(instance: string, u: string, v: string)
    requires NitterUrl(instance, u) == NitterUrl(instance, v)
    ensures u == v
  {
    var a, b := NitterUrl(instance, u), NitterUrl(instance, v);
    assert |u| == |v|;
    assert u == a[|instance| + 1..|instance| + 1 + |u|];
    assert v == b[|instance| + 1..|instance| + 1 + |v|];
  }

  /** The entry loop for one user: records for the entries up to the first one
      lacking a title or link, where the raised error ends that user's loop
      (records already appended stay). */
  function EntryItems(tag: string, es: seq<Entry>): (r: seq<Item>)
    ensures |r| <= |es|
    ensures forall i :: 0 <= i < |r| ==>
      r[i].source == tag && es[i].title == Some(r[i].text) && es[i].link == Some(r[i].url)
    ensures |r| < |es| ==> !HasTitleAndLink(es[|r|])
  {
    if |es| == 0 || !HasTitleAndLink(es[0]) then []
    else [Item(tag, es[0].title.value, es[0].link.value)] + EntryItems(tag, es[1..])
  }

  /** What one username contributes: nothing when it is blank after trimming
      or its feed is malformed, otherwise its entries in feed order. */
  function UserItems(instance: string, username: string, parse: Parser): (r: seq<Item>)
    ensures IsBlank(username) ==> r == []
    ensures !IsBlank(username) && parse(NitterUrl(instance, username)).Malformed? ==> r == []
    ensures !IsBlank(username) && parse(NitterUrl(instance, username)).Entries? ==>
      r == EntryItems(NitterLabel(username), parse(NitterUrl(instance, username)).entries)
    ensures r != [] ==> !IsBlank(username)
    ensures forall k :: 0 <= k < |r| ==> r[k].source == NitterLabel(username)
  {
    if Trim(username) == [] then []
    else
      match parse(NitterUrl(instance, username))
      case Malformed => []
      case Entries(es) => EntryItems(NitterLabel(username), es)
  }

  /** The source tags of the non-blank usernames. */
  function UserTags(usernames: seq<string>): set<string> {
    set u | u in usernames && !IsBlank(u) :: NitterLabel(u)
  }

  /** Every item is tagged with a non-blank username of the list. */
  predicate FromUsers(items: seq<Item>, usernames: seq<string>) {
    forall k :: 0 <= k < |items| ==> items[k].source in UserTags(usernames)
  }

  lemma FromUsersCons(head: seq<Item>, tail: seq<Item>, usernames: seq<string>)
    requires |usernames| > 0
    requires head != [] ==> !IsBlank(usernames[0])
    requires forall k :: 0 <= k < |head| ==> head[k].source == NitterLabel(usernames[0])
    requires FromUsers(tail, usernames[1..])
    ensures FromUsers(head + tail, usernames)
  {
    var r := head + tail;
    assert UserTags(usernames[1..]) <= UserTags(usernames) by {
      forall u | u in usernames[1..] ensures u in usernames { }
    }
    if head != [] {
      assert NitterLabel(usernames[0]) in UserTags(usernames);
    }
    forall k | 0 <= k < |r| ensures r[k].source in UserTags(usernames) {
      if k < |head| {
        assert r[k] == head[k];
      } else {
        assert r[k] == tail[k - |head|];
      }
    }
  }

  /** `fetch_nitter_rss(usernames)`: each item is tagged with a non-blank
      username of the list. */
  function FetchNitterRss(instance: string, usernames: seq<string>, parse: Parser): (r: seq<Item>)
    ensures FromUsers(r, usernames)
  {
    if |usernames| == 0 then []
    else
      var head := UserItems(instance, usernames[0], parse);
      var tail := FetchNitterRss(instance, usernames[1..], parse);
      FromUsersCons(head, tail, usernames);
      head + tail
  }

  lemma FetchNitterRssSingle(instance: string, username: string, parse: Parser)
    ensures FetchNitterRss(instance, [username], parse) == UserItems(instance, username, parse)
  {
    assert [username][1..] == [];
  }

  /** The output is the concatenation of the users' contributions, in
      username order. */
  lemma {:induction false} FetchNitterRssConcat(instance: string, a: seq<string>, b: seq<string>, parse: Parser)
    ensures FetchNitterRss(instance, a + b, parse) == FetchNitterRss(instance, a, parse) + FetchNitterRss(instance, b, parse)
    decreases |a|
  {
    if |a| == 0 {
      assert a + b == b;
    } else {
      assert (a + b)[0] == a[0];
      assert (a + b)[1..] == a[1..] + b;
      FetchNitterRssConcat(instance, a[1..], b, parse);
    }
  }

  /** Failure isolation: one user's contribution sits between those of the
      users before and after it, and theirs do not depend on it. */
  lemma FetchNitterRssIsolation(instance: string, before: seq<string>, username: string, after: seq<string>, parse: Parser)
    ensures FetchNitterRss(instance, before + [username] + after, parse)
         == FetchNitterRss(instance, before, parse) + UserItems(instance, username, parse) + FetchNitterRss(instance, after, parse)
  {
    var all := before + [username] + after;
    assert all == (before + [username]) + after;
    FetchNitterRssConcat(instance, before + [username], after, parse);
    FetchNitterRssConcat(instance, before, [username], parse);
    FetchNitterRssSingle(instance, username, parse);
  }

  /** A blank username, or one whose feed is malformed, contributes nothing and
      the other users are still fetched. */
  lemma FetchNitterRssSkipsUser(instance: string, before: seq<string>, username: string, after: seq<string>, parse: Parser)
    requires IsBlank(username) || parse(NitterUrl(instance, username)).Malformed?
    ensures FetchNitterRss(instance, before + [username] + after, parse)
         == FetchNitterRss(instance, before + after, parse)
  {
    FetchNitterRssIsolation(instance, before, username, after, parse);
    FetchNitterRssConcat(instance, before, after, parse);
  }

  /** For a non-blank user with a well-formed feed every entry becomes one
      item `{source: "Twitter RSS (@u)", text: title, url: link}`, in feed order. */
  lemma UserItemsAllEntries(instance: string, username: string, parse: Parser)
    requires !IsBlank(username)
    requires parse(NitterUrl(instance, username)).Entries?
    requires forall i :: 0 <= i < |parse(NitterUrl(instance, username)).entries| ==>
      HasTitleAndLink(parse(NitterUrl(instance, username)).entries[i])
    ensures var es := parse(NitterUrl(instance, username)).entries;
      var r := UserItems(instance, username, parse);
      && |r| == |es|
      && forall i :: 0 <= i < |es| ==>
        r[i] == Item("Twitter RSS (@" + username + ")", es[i].title.value, es[i].link.value)
  {
  }

  // ---------------------------------------------------------------------------
  // fetch_reddit_posts

  const MaxRedditText: nat := 250
  const DefaultRedditLimit: int := 5

  datatype Post = Post(title: string, selftext: string, url: string)

  /** Iterating `subreddit.new(limit)`: it either runs to completion, or raises
      after yielding some posts (possibly none). */
  datatype Listing = Complete(posts: seq<Post>) | Raised(yielded: seq<Post>) {
    function Yielded(): seq<Post> {
      match this
      case Complete(ps) => ps
      case Raised(ps) => ps
    }
  }

  /** The Reddit client, as the fetcher uses it: subreddit name and limit to
      the listing of its newest posts. */
  datatype RedditClient = RedditClient(newPosts: (string, int) -> Listing)

  function RedditLabel(subreddit: string): string {
    "Reddit (r/" + subreddit + ")"
  }

  /** A post's text: `title - selftext`, cut to its first 250 characters. */
  function PostText(p: Post): (r: string)
    ensures |r| <= MaxRedditText
    ensures r <= p.title + " - " + p.selftext
    ensures |p.title + " - " + p.selftext| <= MaxRedditText ==> r == p.title + " - " + p.selftext
    ensures |p.title + " - " + p.selftext| > MaxRedditText ==> |r| == MaxRedditText
  {
    Truncate(p.title + " - " + p.selftext, MaxRedditText)
  }

  /** One item per yielded post, in order. */
  function PostItems(tag: string, posts: seq<Post>): (r: seq<Item>)
    ensures |r| == |posts|
    ensures forall i :: 0 <= i < |r| ==>
      r[i].source == tag && |r[i].text| <= MaxRedditText && r[i].text == PostText(posts[i]) && r[i].url == posts[i].url
  {
    if |posts| == 0 then []
    else [Item(tag, PostText(posts[0]), posts[0].url)] + PostItems(tag, posts[1..])
  }

  /** The loop over subreddits; a raising listing keeps what it yielded and the
      loop moves on to the next subreddit. */
  function SubredditItems(client: RedditClient, subreddits: seq<string>, limit: int): (r: seq<Item>)
    ensures forall k :: 0 <= k < |r| ==> |r[k].text| <= MaxRedditText
  {
    if |subreddits| == 0 then []
    else
      PostItems(RedditLabel(subreddits[0]), client.newPosts(subreddits[0], limit).Yielded())
      + SubredditItems(client, subreddits[1..], limit)
  }

  /** `fetch_reddit_posts`: nothing without a client; otherwise every text is
      at most 250 characters. */
  function FetchRedditPosts(client: Option<RedditClient>, subreddits: seq<string>, limit: int): (r: seq<Item>)
    ensures client.None? || |subreddits| == 0 ==> r == []
    ensures client.Some? && |subreddits| > 0 ==>
      r == PostItems(RedditLabel(subreddits[0]), client.value.newPosts(subreddits[0], limit).Yielded())
           + FetchRedditPosts(client, subreddits[1..], limit)
    ensures forall k :: 0 <= k < |r| ==> |r[k].text| <= MaxRedditText
  {
    match client
    case None => []
    case Some(c) => SubredditItems(c, subreddits, limit)
  }

  /** `fetch_reddit_posts(subreddits)` with the default `limit=5`: each
      subreddit's newest five posts are requested. */
  function FetchRedditPostsByDefault(client: Option<RedditClient>, subreddits: seq<string>): (r: seq<Item>)
    ensures client.None? ==> r == []
    ensures client.Some? ==> r == SubredditItems(client.value, subreddits, 5)
    ensures forall k :: 0 <= k < |r| ==> |r[k].text| <= MaxRedditText
  {
    FetchRedditPosts(client, subreddits, DefaultRedditLimit)
  }

  lemma {:induction false} SubredditItemsConcat(client: RedditClient, a: seq<string>, b: seq<string>, limit: int)
    ensures SubredditItems(client, a + b, limit) == SubredditItems(client, a, limit) + SubredditItems(client, b, limit)
    decreases |a|
  {
    if |a| == 0 {
      assert a + b == b;
    } else {
      assert (a + b)[0] == a[0];
      assert (a + b)[1..] == a[1..] + b;
      SubredditItemsConcat(client, a[1..], b, limit);
    }
  }

  /** A subreddit whose listing raises before yielding anything contributes
      nothing, and the other subreddits are still fetched. */
  lemma FetchRedditPostsSkipsFailure(client: RedditClient, before: seq<string>, subreddit: string, after: seq<string>, limit: int)
    requires client.newPosts(subreddit, limit) == Raised([])
    ensures FetchRedditPosts(Some(client), before + [subreddit] + after, limit)
         == FetchRedditPosts(Some(client), before, limit) + FetchRedditPosts(Some(client), after, limit)
  {
    SubredditItemsSkip(client, before, subreddit, after, limit);
  }

  /** An empty middle part drops out of a three-part concatenation. */
  lemma DropEmptyMiddle<T>(x: seq<T>, y: seq<T>, z: seq<T>)
    requires y == []
    ensures x + y + z == x + z
  {
  }

  lemma SubredditItemsSkip(client: RedditClient, before: seq<string>, subreddit: string, after: seq<string>, limit: int)
    requires client.newPosts(subreddit, limit).Yielded() == []
    ensures SubredditItems(client, before + [subreddit] + after, limit)
         == SubredditItems(client, before, limit) + SubredditItems(client, after, limit)
  {
    SubredditItemsIsolation(client, before, subreddit, after, limit);
    SubredditItemsNothingYielded(client, subreddit, limit);
    DropEmptyMiddle(SubredditItems(client, before, limit), SubredditItems(client, [subreddit], limit), SubredditItems(client, after, limit));
  }

  /** One subreddit's contribution sits between those of the subreddits
      before and after it, and theirs do not depend on it. */
  lemma SubredditItemsIsolation(client: RedditClient, before: seq<string>, subreddit: string, after: seq<string>, limit: int)
    ensures SubredditItems(client, before + [subreddit] + after, limit)
         == SubredditItems(client, before, limit) + SubredditItems(client, [subreddit], limit) + SubredditItems(client, after, limit)
  {
    assert before + [subreddit] + after == (before + [subreddit]) + after;
    SubredditItemsConcat(client, before + [subreddit], after, limit);
    SubredditItemsConcat(client, before, [subreddit], limit);
  }

  lemma SubredditItemsNothingYielded(client: RedditClient, subreddit: string, limit: int)
    requires client.newPosts(subreddit, limit).Yielded() == []
    ensures SubredditItems(client, [subreddit], limit) == []
  {
    SubredditItemsSingle(client, subreddit, limit);
  }

  lemma SubredditItemsSingle(client: RedditClient, subreddit: string, limit: int)
    ensures SubredditItems(client, [subreddit], limit)
         == PostItems(RedditLabel(subreddit), client.newPosts(subreddit, limit).Yielded())
  {
    assert [subreddit][1..] == [];
  }

  /** Each Reddit text is a prefix of `title - selftext`. */
  lemma RedditTextIsPrefix(client: RedditClient, subreddit: string, limit: int, i: int)
    requires 0 <= i < |client.newPosts(subreddit, limit).Yielded()|
    ensures var p := client.newPosts(subreddit, limit).Yielded()[i];
      var r := FetchRedditPosts(Some(client), [subreddit], limit);
      && i < |r| && r[i].text <= p.title + " - " + p.selftext && r[i].url == p.url
  {
    assert [subreddit][1..] == [];
  }

  /** `fetch_rsshub_twitter`: delegates to the RSSHub fetcher. */
  function FetchRsshubTwitter(rsshubUrl: string, maxItems: Option<int>, parse: Parser): (r: Result<seq<RssHub.Tweet>>)
    ensures r == RssHub.Fetch(rsshubUrl, maxItems, parse)
    ensures parse(rsshubUrl).Malformed? ==> r == Ok([])
    ensures r.Ok? && parse(rsshubUrl).Entries? ==> |r.value| <= |parse(rsshubUrl).entries|
  {
    RssHub.Fetch(rsshubUrl, maxItems, parse)
  }
}
