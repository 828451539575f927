/** The rss-feed-emitter object both the feed manager and the flux
    controller hold, reduced to its two tables: the list of registered feeds
    and the listeners attached to each event name. Polling is not modelled. */
module FeedEmitter {

  /** One entry of the feed list: `{ url, refresh, eventName }`. */
  datatype FeedConfig = FeedConfig(url: string, refresh: int, eventName: string)

  /** The list without the entries for `url` under `eventName`. */
  function WithoutFeed(feeds: seq<FeedConfig>, url: string, eventName: string): (r: seq<FeedConfig>)
    ensures |r| <= |feeds|
    ensures forall f :: f in r <==> f in feeds && !(f.url == url && f.eventName == eventName)
    decreases |feeds|
  {
    if |feeds| == 0 then []
    else
      var rest := WithoutFeed(feeds[1..], url, eventName);
      if feeds[0].url == url && feeds[0].eventName == eventName then rest else [feeds[0]] + rest
  }

  /** The list without its first entry for `url`. */
  function WithoutFirstUrl(feeds: seq<FeedConfig>, url: string): (r: seq<FeedConfig>)
    ensures (exists i :: 0 <= i < |feeds| && feeds[i].url == url) ==> |r| == |feeds| - 1
    ensures (forall i :: 0 <= i < |feeds| ==> feeds[i].url != url) ==> r == feeds
    ensures forall f :: f in r ==> f in feeds
    decreases |feeds|
  {
    if |feeds| == 0 then []
    else if feeds[0].url == url then feeds[1..]
    else [feeds[0]] + WithoutFirstUrl(feeds[1..], url)
  }

  /** No two entries share a url. */
  ghost predicate UniqueUrls(feeds: seq<FeedConfig>) {
    forall i, j :: 0 <= i < j < |feeds| ==> feeds[i].url != feeds[j].url
  }

  /** The tail of a list with unique urls has unique urls, none of them
      the head's. */
  lemma UniqueTail(feeds: seq<FeedConfig>)
    requires |feeds| > 0 && UniqueUrls(feeds)
    ensures UniqueUrls(feeds[1..])
    ensures forall f :: f in feeds[1..] ==> f.url != feeds[0].url
  {
    var tail := feeds[1..];
    forall i, j | 0 <= i < j < |tail| ensures tail[i].url != tail[j].url {
      assert tail[i] == feeds[i + 1] && tail[j] == feeds[j + 1];
    }
    forall f | f in tail ensures f.url != feeds[0].url {
      var j :| 0 <= j < |tail| && tail[j] == f;
      assert feeds[j + 1] == f;
    }
  }

  /** On a list with unique urls, removing the first entry for `url`
      removes every entry for it and keeps the others. */
  lemma {:induction false} WithoutFirstUrlMembers(feeds: seq<FeedConfig>, url: string)
    requires UniqueUrls(feeds)
    ensures forall f :: f in WithoutFirstUrl(feeds, url) <==> f in feeds && f.url != url
    decreases |feeds|
  {
    if |feeds| > 0 {
      UniqueTail(feeds);
      assert forall f :: f in feeds <==> f == feeds[0] || f in feeds[1..] by {
        assert feeds == [feeds[0]] + feeds[1..];
      }
      if feeds[0].url != url {
        WithoutFirstUrlMembers(feeds[1..], url);
      }
    }
  }

  /** Removing the first entry for a url keeps urls unique. */
  lemma {:induction false} WithoutFirstUrlUnique(feeds: seq<FeedConfig>, url: string)
    requires UniqueUrls(feeds)
    ensures UniqueUrls(WithoutFirstUrl(feeds, url))
    decreases |feeds|
  {
    if |feeds| > 0 {
      UniqueTail(feeds);
      if feeds[0].url != url {
        var tail := feeds[1..];
        WithoutFirstUrlUnique(tail, url);
        var rest := WithoutFirstUrl(tail, url);
        var r := [feeds[0]] + rest;
        assert r == WithoutFirstUrl(feeds, url);
        forall i, j | 0 <= i < j < |r| ensures r[i].url != r[j].url {
          if i == 0 {
            assert r[j] == rest[j - 1] && r[j] in tail;
          } else {
            assert r[i] == rest[i - 1] && r[j] == rest[j - 1];
          }
        }
      }
    }
  }

  /** Appending an entry whose url is not yet used keeps urls unique. */
  lemma AppendFresh(feeds: seq<FeedConfig>, feed: FeedConfig)
    requires UniqueUrls(feeds)
    requires forall f :: f in feeds ==> f.url != feed.url
    ensures UniqueUrls(feeds + [feed])
  {
    var r := feeds + [feed];
    forall i, j | 0 <= i < j < |r| ensures r[i].url != r[j].url {
      if j == |feeds| {
        assert r[i] in feeds;
      } else {
        assert r[i] == feeds[i] && r[j] == feeds[j];
      }
    }
  }

  /** Removing entries keeps urls unique. */
  lemma {:induction false} WithoutFeedUnique(feeds: seq<FeedConfig>, url: string, eventName: string)
    requires UniqueUrls(feeds)
    ensures UniqueUrls(WithoutFeed(feeds, url, eventName))
    decreases |feeds|
  {
    if |feeds| > 0 {
      var tail := feeds[1..];
      UniqueTail(feeds);
      WithoutFeedUnique(tail, url, eventName);
      var rest := WithoutFeed(tail, url, eventName);
      if !(feeds[0].url == url && feeds[0].eventName == eventName) {
        var r := [feeds[0]] + rest;
        forall i, j | 0 <= i < j < |r| ensures r[i].url != r[j].url {
          if i == 0 {
            assert r[j] == rest[j - 1] && r[j] in tail;
          } else {
            assert r[i] == rest[i - 1] && r[j] == rest[j - 1];
          }
        }
      }
    }
  }

  /** The listeners a table holds for an event, oldest first. */
  function ListenersOf<L>(table: map<string, seq<L>>, eventName: string): seq<L> {
    if eventName in table then table[eventName] else []
  }

  /** The table after `on(eventName, l)` for each `l` of `ls` in turn. */
  function Attached<L>(table: map<string, seq<L>>, eventName: string, ls: seq<L>): (r: map<string, seq<L>>)
    ensures ListenersOf(r, eventName) == ListenersOf(table, eventName) + ls
    ensures forall e :: e != eventName ==> ListenersOf(r, e) == ListenersOf(table, e)
    ensures ls == [] ==> r == table
  {
    if ls == [] then table else table[eventName := ListenersOf(table, eventName) + ls]
  }

  /** Attaching two lists one after the other attaches their concatenation. */
  lemma AttachedTwice<L>(table: map<string, seq<L>>, eventName: string, ls1: seq<L>, ls2: seq<L>)
    ensures Attached(Attached(table, eventName, ls1), eventName, ls2) == Attached(table, eventName, ls1 + ls2)
  {
    if ls1 == [] {
      assert ls1 + ls2 == ls2;
    } else if ls2 != [] {
      assert ListenersOf(table, eventName) + ls1 + ls2 == ListenersOf(table, eventName) + (ls1 + ls2);
    } else {
      assert ls1 + ls2 == ls1;
    }
  }

  /** The emitter: `list` of feeds and the listener table of its event
      emitter. `L` is the type of the listener callbacks. */
  class Emitter<L> {
    var feeds: seq<FeedConfig>
    var listenerTable: map<string, seq<L>>

    constructor ()
      ensures feeds == [] && listenerTable == map[]
    {
      feeds := [];
      listenerTable := map[];
    }

    /** `listeners(eventName)`: the callbacks attached to the event, oldest first. */
    function Listeners(eventName: string): seq<L>
      reads this
    {
      ListenersOf(listenerTable, eventName)
    }

    /** `add(feed)`: an entry for the same url and event name is replaced,
      and the feed goes to the end of the list. */
    method Add(feed: FeedConfig)
      modifies this
      ensures feeds == WithoutFeed(old(feeds), feed.url, feed.eventName) + [feed]
      ensures listenerTable == old(listenerTable)
    {
      feeds := WithoutFeed(feeds, feed.url, feed.eventName) + [feed];
    }

    /** `remove(url)`: the first entry for `url` leaves the list; nothing
      happens when there is none. Listeners stay attached. */
    method Remove(url: string)
      modifies this
      ensures feeds == WithoutFirstUrl(old(feeds), url)
      ensures listenerTable == old(listenerTable)
    {
      feeds := WithoutFirstUrl(feeds, url);
    }

    /** `on(eventName, listener)` / `addListener`: appends the listener to
      the event's list, whether or not a feed uses that event. */
    method On(eventName: string, listener: L)
      modifies this
      ensures listenerTable == Attached(old(listenerTable), eventName, [listener])
      ensures feeds == old(feeds)
    {
      listenerTable := listenerTable[eventName := Listeners(eventName) + [listener]];
    }

    /** `destroy()`: every feed is dropped. */
    method Destroy()
      modifies this
      ensures feeds == [] && listenerTable == old(listenerTable)
    {
      feeds := [];
    }
  }
}
