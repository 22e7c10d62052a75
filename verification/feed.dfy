/** What `feedparser.parse(url)` hands back, reduced to the parts the
    fetchers read. Parsing and the network are outside the model: a feed
    source is a function from URL to `FeedResult`. */
module Feed {
  import opened Common

  /** One feed entry. Each field is present or absent; the code reads
      `title` and `link` as attributes (raising when absent) and `summary`
      and `published` through `getattr` with a default. */
  datatype Entry = Entry(
    title: Option<string>,
    link: Option<string>,
    summary: Option<string>,
    published: Option<string>)

  /** A parse result: `Malformed` when feedparser sets the `bozo` bit,
      otherwise its entries in document order. */
  datatype FeedResult = Malformed | Entries(entries: seq<Entry>)

  /** The feed parser, as seen by the code: URL in, parse result out. */
  type Parser = string -> FeedResult

  /** Reading `entry.title` and `entry.link` does not raise. */
  predicate HasTitleAndLink(e: Entry) {
    e.title.Some? && e.link.Some?
  }
}
