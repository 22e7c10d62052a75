/** `RssHubTwitterFetcher` (rsshub_twitter_fetcher.py): parse one RSSHub
    feed and turn its entries into tweet records. */
module RssHub {
  import opened Common
  import opened Feed

  /** The record `fetch` builds for one entry. */
  datatype Tweet = Tweet(title: string, summary: string, url: string, published: string)

  /** Python's `xs[:k]`: a prefix of `xs`; a negative `k` counts from the end. */
  function SliceTo<T>(xs: seq<T>, k: int): (r: seq<T>)
    ensures |r| <= |xs| && r == xs[..|r|]
    ensures 0 <= k ==> |r| == Min(k, |xs|)
    ensures k < 0 ==> |r| == Max(0, |xs| + k)
  {
    if 0 <= k then (if k <= |xs| then xs[..k] else xs)
    else if |xs| + k >= 0 then xs[..|xs| + k]
    else []
  }

  /** The entries `fetch` converts: all of them when `max_items` is `None`,
      otherwise `entries[:max_items]`. */
  function Selected(entries: seq<Entry>, maxItems: Option<int>): (r: seq<Entry>)
    ensures maxItems.None? ==> r == entries
    ensures maxItems.Some? ==> r == SliceTo(entries, maxItems.value)
  {
    match maxItems
    case None => entries
    case Some(k) => SliceTo(entries, k)
  }

  /** The loop of `fetch`: one record per entry, in order; the first entry
      lacking a title or link raises and aborts the whole fetch. */
  function ToTweets(es: seq<Entry>): (r: Result<seq<Tweet>>)
    ensures r.Ok? <==> forall i :: 0 <= i < |es| ==> HasTitleAndLink(es[i])
    ensures r.Ok? ==> |r.value| == |es|
    ensures r.Ok? ==> forall i :: 0 <= i < |es| ==>
      && es[i].title == Some(r.value[i].title)
      && es[i].link == Some(r.value[i].url)
      && r.value[i].summary == es[i].summary.ValueOr("")
      && r.value[i].published == es[i].published.ValueOr("")
    ensures r.Err? ==> r.error == MissingEntryAttribute
  {
    if |es| == 0 then Ok([])
    else if !HasTitleAndLink(es[0]) then Err(MissingEntryAttribute)
    else
      var e := es[0];
      match ToTweets(es[1..])
      case Err(err) => Err(err)
      case Ok(rest) =>
        Ok([Tweet(e.title.value, e.summary.ValueOr(""), e.link.value, e.published.ValueOr(""))] + rest)
  }

  /** `RssHubTwitterFetcher(rssUrl).fetch(max_items)`: a malformed feed gives
      no tweets; otherwise the selected entries become tweets one for one. */
  function Fetch(rssUrl: string, maxItems: Option<int>, parse: Parser): (r: Result<seq<Tweet>>)
    ensures parse(rssUrl).Malformed? ==> r == Ok([])
    ensures parse(rssUrl).Entries? ==> r == ToTweets(Selected(parse(rssUrl).entries, maxItems))
  {
    match parse(rssUrl)
    case Malformed => Ok([])
    case Entries(es) => ToTweets(Selected(es, maxItems))
  }

  /** With `max_items = k >= 0`, when the first `min(k, n)` entries have a
      title and link (later ones are never read), the tweets are those
      entries in their original order. */
  lemma FetchFirstItems(rssUrl: string, k: nat, parse: Parser)
    requires parse(rssUrl).Entries?
    requires forall i :: 0 <= i < Min(k, |parse(rssUrl).entries|) ==> HasTitleAndLink(parse(rssUrl).entries[i])
    ensures var es := parse(rssUrl).entries;
      var r := Fetch(rssUrl, Some(k), parse);
      && r.Ok? && |r.value| == Min(k, |es|)
      && forall i :: 0 <= i < |r.value| ==> Some(r.value[i].url) == es[i].link && Some(r.value[i].title) == es[i].title
  {
    var es := parse(rssUrl).entries;
    var sel := SliceTo(es, k);
    assert forall i :: 0 <= i < |sel| ==> sel[i] == es[i];
  }

  /** With `max_items = None` every entry comes back, in order. */
  lemma FetchAllItems(rssUrl: string, parse: Parser)
    requires parse(rssUrl).Entries?
    requires forall i :: 0 <= i < |parse(rssUrl).entries| ==> HasTitleAndLink(parse(rssUrl).entries[i])
    ensures var es := parse(rssUrl).entries;
      var r := Fetch(rssUrl, None, parse);
      && r.Ok? && |r.value| == |es|
      && forall i :: 0 <= i < |es| ==> Some(r.value[i].url) == es[i].link && Some(r.value[i].title) == es[i].title
  {
  }
}
