/** FeedManager: registers RSS feeds with the emitter after checking that
    the URL serves an RSS 2.0 document, and moves listeners when a feed's URL
    changes. The HTTP fetch and the XML parser are a parameter `fetch`;
    JavaScript's conversion of a string to a number is a parameter
    `toNumber`. */
module FeedManager {
  import opened Wrappers
  import opened FeedEmitter

  /** An attribute value after the parser's value coercion. */
  datatype AttributeValue =
    | NumberValue(n: real)
    | TextValue(s: string)
    | BooleanValue(b: bool)

  datatype XmlElement = XmlElement(attributes: map<string, AttributeValue>)

  /** A parsed document: its top-level elements by tag name. */
  datatype XmlDocument = XmlDocument(roots: map<string, XmlElement>)

  /** `value == 2.0` in JavaScript's loose equality (section 7.2.14 of
      ECMA-262): a string is compared through `toNumber`, the ToNumber
      conversion (`None` for NaN and the infinities); `true` and `false`
      compare as 1 and 0. */
  predicate LooselyEqualsTwo(value: AttributeValue, toNumber: string -> Option<real>): (b: bool)
    // the number 2, or a text that converts to 2; never a boolean
    ensures b <==> value == NumberValue(2.0) || (value.TextValue? && toNumber(value.s) == Some(2.0))
  {
    match value
    case NumberValue(n) => n == 2.0
    case TextValue(s) => toNumber(s) == Some(2.0)
    case BooleanValue(b) => (if b then 1.0 else 0.0) == 2.0
  }

  /** The RSS 2.0 shape: a top-level `rss` element whose `version`
      attribute equals 2.0. */
  predicate IsRss2(doc: XmlDocument, toNumber: string -> Option<real>): (b: bool)
    ensures b <==> "rss" in doc.roots && "@_version" in doc.roots["rss"].attributes
                   && var v := doc.roots["rss"].attributes["@_version"];
                      v == NumberValue(2.0) || (v.TextValue? && toNumber(v.s) == Some(2.0))
  {
    && "rss" in doc.roots
    && "@_version" in doc.roots["rss"].attributes
    && LooselyEqualsTwo(doc.roots["rss"].attributes["@_version"], toNumber)
  }

  /** Handle of a listener callback attached to a feed's event. */
  datatype Callback = Callback(id: nat)

  datatype FeedError =
    | FeedParseError(url: string)   // the document is not RSS 2.0
    | FetchFailed(url: string)      // the GET rejected; its error propagates

  /** isFeed: fetch the URL (`None` when the GET fails) and check the shape. */
  function IsFeed(url: string, fetch: string -> Option<XmlDocument>, toNumber: string -> Option<real>)
    : (r: Result<bool, FeedError>)
    ensures r.Err? <==> fetch(url).None?
    ensures r.Err? ==> r.error == FetchFailed(url)
    ensures r.Ok? ==> (r.value <==> IsRss2(fetch(url).value, toNumber))
  {
    match fetch(url)
    case None => Err(FetchFailed(url))
    case Some(doc) => Ok(IsRss2(doc, toNumber))
  }

  /** The check addFeed and updateFeed start with: the fetch error, or
      FeedParseError when the document is not a feed. */
  function FeedGate(url: string, fetch: string -> Option<XmlDocument>, toNumber: string -> Option<real>)
    : (r: Result<(), FeedError>)
    ensures r.Ok? <==> fetch(url).Some? && IsRss2(fetch(url).value, toNumber)
    ensures fetch(url).Some? && !IsRss2(fetch(url).value, toNumber) ==> r == Err(FeedParseError(url))
  {
    match IsFeed(url, fetch, toNumber)
    case Err(e) => Err(e)
    case Ok(isFeed) => if isFeed then Ok(()) else Err(FeedParseError(url))
  }

  /** `refreshTime || 200`: an absent or zero interval becomes 200. */
  function RefreshOf(refreshTime: Option<int>): (refresh: int)
    ensures refresh != 0
    ensures refreshTime.Some? && refreshTime.value != 0 ==> refresh == refreshTime.value
    ensures refreshTime.None? || refreshTime.value == 0 ==> refresh == 200
  {
    match refreshTime
    case Some(t) => if t != 0 then t else 200
    case None => 200
  }

  /** `feeds.some(feed => feed.url == url)`. */
  function SomeUrl(feeds: seq<FeedConfig>, url: string): (found: bool)
    ensures found <==> exists i :: 0 <= i < |feeds| && feeds[i].url == url
    ensures found <==> exists f :: f in feeds && f.url == url
    decreases |feeds|
  {
    if |feeds| == 0 then false
    else feeds[0].url == url || SomeUrl(feeds[1..], url)
  }

  /** The listener table updateFeed leaves: the old URL's listeners are
      attached, after its own, to the new URL; none is detached. */
  function Reattached(table: map<string, seq<Callback>>, oldUrl: string, newUrl: string)
    : (r: map<string, seq<Callback>>)
    ensures ListenersOf(r, newUrl) == ListenersOf(table, newUrl) + ListenersOf(table, oldUrl)
    ensures forall e :: e != newUrl ==> ListenersOf(r, e) == ListenersOf(table, e)
  {
    Attached(table, newUrl, ListenersOf(table, oldUrl))
  }

  /** Moving a URL to itself doubles its listeners: every item would then
      be handled twice. */
  lemma SelfUpdateDoublesListeners(table: map<string, seq<Callback>>, url: string)
    ensures ListenersOf(Reattached(table, url, url), url) == ListenersOf(table, url) + ListenersOf(table, url)
  {
  }

  /** Moving a URL elsewhere leaves its listeners attached to it. */
  lemma OldListenersStay(table: map<string, seq<Callback>>, oldUrl: string, newUrl: string)
    requires oldUrl != newUrl
    ensures ListenersOf(Reattached(table, oldUrl, newUrl), oldUrl) == ListenersOf(table, oldUrl)
  {
  }

  /** A page whose top-level element is not `rss`, an HTML page say, is
      rejected with FeedParseError. */
  lemma NonRssRootRejected(url: string, fetch: string -> Option<XmlDocument>, toNumber: string -> Option<real>)
    requires fetch(url).Some? && "rss" !in fetch(url).value.roots
    ensures FeedGate(url, fetch, toNumber) == Err(FeedParseError(url))
  {
  }

  /** A `version` the parser leaves as text still passes when it converts
      to 2, and a boolean `version` never does. */
  lemma TextVersionAccepted(url: string, fetch: string -> Option<XmlDocument>, toNumber: string -> Option<real>,
                            version: string)
    requires fetch(url).Some? && "rss" in fetch(url).value.roots
    requires "@_version" in fetch(url).value.roots["rss"].attributes
    requires fetch(url).value.roots["rss"].attributes["@_version"] == TextValue(version)
    ensures FeedGate(url, fetch, toNumber).Ok? <==> toNumber(version) == Some(2.0)
  {
  }

  class FeedManager {
    const feeder: Emitter<Callback>

    /** Every feed the manager registers uses its URL as event name, and
        adding a URL replaces its earlier entry, so URLs are unique. */
    ghost predicate Valid()
      reads this, feeder
    {
      && UniqueUrls(feeder.feeds)
      && forall f :: f in feeder.feeds ==> f.eventName == f.url
    }

    /** Some registered feed has this URL. */
    ghost predicate Registered(url: string)
      reads this, feeder
    {
      exists f :: f in feeder.feeds && f.url == url
    }

    constructor ()
      ensures Valid() && fresh(feeder)
      ensures feeder.feeds == [] && feeder.listenerTable == map[]
    {
      feeder := new Emitter();
    }

    /** isKnownFeed: `list.some(feed => feed.url == url)`. */
    function IsKnownFeed(url: string): (known: bool)
      reads this, feeder
      ensures known <==> Registered(url)
    {
      SomeUrl(feeder.feeds, url)
    }

    /** addFeed: registers `{url, refresh: refreshTime || 200, eventName: url}`
        once the URL is known to serve a feed; otherwise nothing changes. */
    method AddFeed(url: string, refreshTime: Option<int>, fetch: string -> Option<XmlDocument>,
                   toNumber: string -> Option<real>)
      returns (r: Result<(), FeedError>)
      requires Valid()
      modifies feeder
      ensures Valid()
      ensures r == FeedGate(url, fetch, toNumber)
      ensures r.Ok? ==> feeder.feeds == WithoutFeed(old(feeder.feeds), url, url) + [FeedConfig(url, RefreshOf(refreshTime), url)]
      ensures r.Ok? ==> Registered(url)
      ensures r.Err? ==> feeder.feeds == old(feeder.feeds)
      ensures feeder.listenerTable == old(feeder.listenerTable)
    {
      var isFeed := IsFeed(url, fetch, toNumber);
      if isFeed.Err? {
        return Err(isFeed.error);
      }
      if !isFeed.value {
        return Err(FeedParseError(url));
      }
      var feed := FeedConfig(url, RefreshOf(refreshTime), url);
      WithoutFeedUnique(feeder.feeds, url, url);
      AppendFresh(WithoutFeed(feeder.feeds, url, url), feed);
      feeder.Add(feed);
      assert feed in feeder.feeds;
      r := Ok(());
    }

    /** removeFeed: an unknown URL only builds a FeedUnknown that is never
        thrown; the emitter then drops the URL's entry, if any. Listeners
        attached under the URL stay. */
    method RemoveFeed(url: string)
      requires Valid()
      modifies feeder
      ensures Valid()
      ensures feeder.feeds == WithoutFirstUrl(old(feeder.feeds), url)
      ensures !Registered(url)
      ensures forall u :: u != url ==> (Registered(u) <==> old(Registered(u)))
      ensures feeder.listenerTable == old(feeder.listenerTable)
    {
      var known := IsKnownFeed(url);
      if !known {
        // `new FeedUnknown(...)` is built and discarded
      }
      WithoutFirstUrlUnique(feeder.feeds, url);
      WithoutFirstUrlMembers(feeder.feeds, url);
      feeder.Remove(url);
    }

    /** onNewItem: attaches the listener under the URL's event, known or not. */
    method OnNewItem(url: string, listener: Callback)
      requires Valid()
      modifies feeder
      ensures Valid()
      ensures feeder.feeds == old(feeder.feeds)
      ensures feeder.listenerTable == Attached(old(feeder.listenerTable), url, [listener])
    {
      var known := IsKnownFeed(url);
      if !known {
        // `new FeedUnknown(...)` is built and discarded
      }
      feeder.On(url, listener);
    }

    /** updateFeed: checks the new URL first (nothing changes if it is not
        a feed), then removes the old URL, adds the new one with the default
        interval and attaches to it every listener the old URL had on entry.
        The old URL's listeners are not detached. */
    method UpdateFeed(oldUrl: string, newUrl: string, fetch: string -> Option<XmlDocument>,
                      toNumber: string -> Option<real>)
      returns (r: Result<(), FeedError>)
      requires Valid()
      modifies feeder
      ensures Valid()
      ensures r == FeedGate(newUrl, fetch, toNumber)
      ensures r.Err? ==> feeder.feeds == old(feeder.feeds) && feeder.listenerTable == old(feeder.listenerTable)
      ensures r.Ok? ==> (feeder.feeds ==
        WithoutFeed(WithoutFirstUrl(old(feeder.feeds), oldUrl), newUrl, newUrl) + [FeedConfig(newUrl, 200, newUrl)])
      ensures r.Ok? ==> Registered(newUrl) && (oldUrl != newUrl ==> !Registered(oldUrl))
      // every listener the old URL had is now also under the new URL, after the new URL's own
      ensures r.Ok? ==> feeder.listenerTable == Reattached(old(feeder.listenerTable), oldUrl, newUrl)
    {
      var known := IsKnownFeed(oldUrl);
      if !known {
        // `new FeedUnknown(...)` is built and discarded
      }
      var isFeed := IsFeed(newUrl, fetch, toNumber);
      if isFeed.Err? {
        return Err(isFeed.error);
      }
      if !isFeed.value {
        return Err(FeedParseError(newUrl));
      }

      var oldFeedListeners := feeder.Listeners(oldUrl);
      RemoveFeed(oldUrl);
      // the second fetch of the same URL gives the same document, so this succeeds
      r := AddFeed(newUrl, None, fetch, toNumber);
      WithoutFirstUrlMembers(old(feeder.feeds), oldUrl);
      AttachAll(newUrl, oldFeedListeners);
    }

    /** The `forEach` at the end of updateFeed: `onNewItem(url, listener)`
        for each listener in turn. */
    method AttachAll(url: string, listeners: seq<Callback>)
      requires Valid()
      modifies feeder
      ensures Valid()
      ensures feeder.feeds == old(feeder.feeds)
      ensures feeder.listenerTable == Attached(old(feeder.listenerTable), url, listeners)
    {
      var i := 0;
      while i < |listeners|
        invariant 0 <= i <= |listeners|
        invariant Valid()
        invariant feeder.feeds == old(feeder.feeds)
        invariant feeder.listenerTable == Attached(old(feeder.listenerTable), url, listeners[..i])
      {
        OnNewItem(url, listeners[i]);
        AttachedTwice(old(feeder.listenerTable), url, listeners[..i], [listeners[i]]);
        assert listeners[..i + 1] == listeners[..i] + [listeners[i]];
        i := i + 1;
      }
      assert listeners[..i] == listeners;
    }

    /** destroy: every feed is dropped. */
    method Destroy()
      requires Valid()
      modifies feeder
      ensures Valid()
      ensures feeder.feeds == [] && feeder.listenerTable == old(feeder.listenerTable)
      ensures forall url :: !Registered(url)
    {
      feeder.Destroy();
    }
  }
}
