/**
 * The entry shaping of `fetchTrendingData`: the decoded trend feed becomes at
 * most twenty items, in feed order, each with a canonical link; any error on
 * the way is re-raised with the message prefixed "Failed to fetch RSS feed: ".
 *
 * The HTTP GET of the feed and its XML decoding are not modelled; their
 * outcome is the `response` parameter, either the decoded `feed` element or
 * the message of the error they raised.
 */
module TrendFeed {
  import opened Wrappers
  import opened UrlNormalizer

  /** One article of the trend list (`QiitaItem`). */
  datatype QiitaItem = QiitaItem(title: string, link: string, updated: string)

  /** What `fetchTrendingData` returns (`QiitaFeedData`). */
  datatype QiitaFeedData = QiitaFeedData(items: seq<QiitaItem>, feedUpdated: string)

  /**
   * One decoded `entry` element: the first `title` value, the `href` attribute
   * of the first `link` element, and the first `updated` value; None where the
   * element is missing.
   */
  datatype RawEntry = RawEntry(title: Option<string>, href: Option<string>, updated: Option<string>)

  /** The decoded `feed` element: its entry list, when present, and its own first `updated` value. */
  datatype RawFeed = RawFeed(entries: Option<seq<RawEntry>>, updated: Option<string>)

  /** The number of entries kept, `.slice(0, 20)`. */
  const MaxItems: nat := 20

  const ErrorPrefix: string := "Failed to fetch RSS feed: "

  /** The message of the TypeError raised by indexing a missing element, as in `item.title[0]`. */
  const MissingValue: string := "Cannot read properties of undefined (reading '0')"

  predicate Complete(e: RawEntry) {
    e.title.Some? && e.href.Some? && e.updated.Some?
  }

  /** The item built from a complete entry: its link is the cleaned `href`. */
  function ToItem(e: RawEntry): (item: QiitaItem)
    requires Complete(e)
  {
    QiitaItem(e.title.value, CleanUrl(e.href.value), e.updated.value)
  }

  /**
   * `entries.map(...)`: one item per entry, in order, when every entry is
   * complete; otherwise the TypeError of the first incomplete one.
   */
  function ShapeEntries(entries: seq<RawEntry>): (r: Result<seq<QiitaItem>, string>)
    ensures r.Success? <==> forall i :: 0 <= i < |entries| ==> Complete(entries[i])
    ensures r.Success? ==> |r.value| == |entries|
    ensures r.Success? ==> forall i :: 0 <= i < |entries| ==> Complete(entries[i]) && r.value[i] == ToItem(entries[i])
    ensures r.Failure? ==> r.error == MissingValue
  {
    if entries == [] then Success([])
    else if !Complete(entries[0]) then Failure(MissingValue)
    else
      match ShapeEntries(entries[1..])
      case Failure(e) => Failure(e)
      case Success(rest) => Success([ToItem(entries[0])] + rest)
  }

  /** `(result.feed.entry || []).slice(0, 20)`. */
  function FirstEntries(feed: RawFeed): (r: seq<RawEntry>)
  {
    var all := feed.entries.GetOr([]);
    if |all| <= MaxItems then all else all[..MaxItems]
  }

  /** `fetchTrendingData`, given the outcome of fetching and decoding the feed. */
  function FetchTrendingData(response: Result<RawFeed, string>): (r: Result<QiitaFeedData, string>)
  {
    match response
    case Failure(message) => Failure(ErrorPrefix + message)
    case Success(feed) =>
      match ShapeEntries(FirstEntries(feed))
      case Failure(message) => Failure(ErrorPrefix + message)
      case Success(items) =>
        if feed.updated.None? then Failure(ErrorPrefix + MissingValue)
        else Success(QiitaFeedData(items, feed.updated.value))
  }

  /** The entries are those of the feed, up to the first twenty, in document order. */
  lemma FirstEntriesPrefix(feed: RawFeed)
    ensures var all := feed.entries.GetOr([]);
      && |FirstEntries(feed)| == (if |all| < MaxItems then |all| else MaxItems)
      && FirstEntries(feed) <= all
  {
  }

  /**
   * Fetching succeeds exactly when the transport did, every one of the first
   * twenty entries has a title, a link and an update time, and the feed has an
   * update time; anything else is a failure whose message carries the prefix.
   */
  lemma FetchSucceedsIff(response: Result<RawFeed, string>)
    ensures FetchTrendingData(response).Success? <==>
      && response.Success?
      && (forall i :: 0 <= i < |FirstEntries(response.value)| ==> Complete(FirstEntries(response.value)[i]))
      && response.value.updated.Some?
    ensures response.Failure? ==> FetchTrendingData(response) == Failure(ErrorPrefix + response.error)
    ensures FetchTrendingData(response).Failure? ==> ErrorPrefix <= FetchTrendingData(response).error
  {
  }

  /**
   * A successful fetch yields the first min(20, |entries|) entries, in order,
   * each with its title and update time and the cleaned `href` as its link,
   * and the feed's own update time.
   */
  lemma FetchItems(feed: RawFeed)
    requires FetchTrendingData(Success(feed)).Success?
    ensures var data := FetchTrendingData(Success(feed)).value;
      var all := feed.entries.GetOr([]);
      && |data.items| <= MaxItems
      && |data.items| == (if |all| < MaxItems then |all| else MaxItems)
      && (forall i :: 0 <= i < |data.items| ==>
            && all[i].title == Some(data.items[i].title)
            && all[i].href.Some? && data.items[i].link == CleanUrl(all[i].href.value)
            && all[i].updated == Some(data.items[i].updated))
      && Some(data.feedUpdated) == feed.updated
  {
    FirstEntriesPrefix(feed);
    var first := FirstEntries(feed);
    assert forall i :: 0 <= i < |first| ==> first[i] == feed.entries.GetOr([])[i];
  }

  /** A feed without an entry list gives no items, and is not an error by itself. */
  lemma FetchWithoutEntries(feed: RawFeed)
    requires feed.entries.None? && feed.updated.Some?
    ensures FetchTrendingData(Success(feed)) == Success(QiitaFeedData([], feed.updated.value))
  {
  }

  /** Entries past the twentieth are never looked at. */
  lemma FetchIgnoresLaterEntries(feed: RawFeed, other: RawFeed)
    requires feed.updated == other.updated
    requires |feed.entries.GetOr([])| >= MaxItems && |other.entries.GetOr([])| >= MaxItems
    requires feed.entries.GetOr([])[..MaxItems] == other.entries.GetOr([])[..MaxItems]
    ensures FetchTrendingData(Success(feed)) == FetchTrendingData(Success(other))
  {
    assert FirstEntries(feed) == FirstEntries(other);
  }

  /** Every link a fetch yields is already canonical: cleaning it again changes nothing. */
  lemma FetchLinksCanonical(feed: RawFeed)
    requires FetchTrendingData(Success(feed)).Success?
    ensures var items := FetchTrendingData(Success(feed)).value.items;
      forall i :: 0 <= i < |items| ==> CleanUrl(items[i].link) == items[i].link
  {
    var items := FetchTrendingData(Success(feed)).value.items;
    var first := FirstEntries(feed);
    forall i | 0 <= i < |items|
      ensures CleanUrl(items[i].link) == items[i].link
    {
      CleanUrlIdempotent(first[i].href.value);
    }
  }
}
