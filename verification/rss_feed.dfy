/** The syndication-feed adapter: nine configured feeds, each fetched in its own goroutine,
    merged with partial success. Fetching and parsing a feed is an input (`fetched[k]` for
    the k-th configured feed), the source lookup `GetSourceByName` is the parameter
    `lookup`, `json.Marshal` is `marshal` (None when it fails) and `uuid.New` is `uuid`. */
module RssFeed {
  import opened Models
  import opened Fanout

  datatype Person = Person(name: string, email: string)

  /** The fields of a parsed feed item that the adapter reads. `image` is the image URL,
      None when the item has no image. */
  datatype FeedItem = FeedItem(
    title: string,
    description: string,
    link: string,
    guid: string,
    published: Option<int>,
    image: Option<string>,
    authors: seq<Person>)

  datatype Feed = Feed(url: string, sourceName: string)

  const RssFeedPairs: seq<Feed> := [
    Feed("https://weworkremotely.com/categories/remote-full-stack-programming-jobs.rss", "WeWorkRemotely"),
    Feed("https://weworkremotely.com/categories/remote-front-end-programming-jobs.rss", "WeWorkRemotely"),
    Feed("https://weworkremotely.com/categories/remote-back-end-programming-jobs.rss", "WeWorkRemotely"),
    Feed("https://remotive.io/remote-jobs/software-dev", "Remotive"),
    Feed("https://jobicy.com/jobs/feed/", "JobIcy"),
    Feed("https://cryptojobslist.com/jobs.rss?jobLocation=Remote", "CryptoJobsList"),
    Feed("https://www.fossjobs.net/rss/all/", "FOSSJobs"),
    Feed("http://rss.indeed.com/rss", "Indeed"),
    Feed("https://remoteok.io/remote-jobs.rss", "RemoteOK")
  ]

  /** The notice made from one item. */
  function ItemNotice(item: FeedItem, sourceId: string, uuid: FeedItem -> string,
                      marshal: FeedItem -> Option<string>): (n: Notice)
    ensures n.title == item.title && n.body == item.description && n.url == item.link
    ensures n.guid == item.guid && n.publishedDate == item.published && n.sourceId == sourceId
    ensures n.imageUrl.Some? <==> item.image.Some?
    ensures n.imageUrl.Some? ==> n.imageUrl.value == item.image.value
    ensures |item.authors| == 0 ==> n.authorName == "" && n.authorUrl == ""
    ensures |item.authors| > 0 ==> n.authorName == item.authors[0].name && n.authorUrl == item.authors[0].email
    ensures marshal(item).None? ==> n.raw == ""
    ensures marshal(item).Some? ==> n.raw == marshal(item).value
  {
    Notice(
      id := uuid(item),
      title := item.title,
      body := item.description,
      url := item.link,
      authorName := if |item.authors| > 0 then item.authors[0].name else "",
      authorUrl := if |item.authors| > 0 then item.authors[0].email else "",
      imageUrl := item.image,
      sourceId := sourceId,
      raw := if marshal(item).Some? then marshal(item).value else "",
      guid := item.guid,
      publishedDate := item.published)
  }

  function ItemNotices(items: seq<FeedItem>, sourceId: string, uuid: FeedItem -> string,
                       marshal: FeedItem -> Option<string>): seq<Notice>
  {
    Map((item: FeedItem) => ItemNotice(item, sourceId, uuid, marshal), items)
  }

  /** `NoticesFromFeedItems`: a preallocated slice filled by index, one notice per item;
      the image and the first author are set on the new notice only when present. */
  method NoticesFromFeedItems(items: seq<FeedItem>, sourceId: string, uuid: FeedItem -> string,
                              marshal: FeedItem -> Option<string>)
    returns (notices: seq<Notice>)
    ensures |notices| == |items|
    ensures forall i :: 0 <= i < |items| ==> notices[i] == ItemNotice(items[i], sourceId, uuid, marshal)
    ensures notices == ItemNotices(items, sourceId, uuid, marshal)
  {
    var slots := new Notice[|items|];
    for i := 0 to |items|
      invariant forall k :: 0 <= k < i ==> slots[k] == ItemNotice(items[k], sourceId, uuid, marshal)
    {
      var item := items[i];
      var jsonData := marshal(item);
      var raw := if jsonData.Some? then jsonData.value else "";
      var newNotice := Notice(uuid(item), item.title, item.description, item.link, "", "", None,
                              sourceId, raw, item.guid, item.published);
      if item.image.Some? {
        newNotice := newNotice.(imageUrl := Some(item.image.value));
      }
      if |item.authors| > 0 {
        newNotice := newNotice.(authorName := item.authors[0].name, authorUrl := item.authors[0].email);
      }
      slots[i] := newNotice;
    }
    notices := slots[..];
  }

  /** What `handleFeed` sends for one feed: the fetch error, else the lookup error, else
      the feed's notices under the looked-up source id. */
  function FeedOutcome(feed: Feed, fetched: Outcome<seq<FeedItem>>, lookup: string -> Outcome<string>,
                       uuid: FeedItem -> string, marshal: FeedItem -> Option<string>): Outcome<seq<Notice>>
  {
    match fetched
    case Err(e) => Err("failed to fetch " + feed.sourceName + ": " + e)
    case Ok(items) =>
      match lookup(feed.sourceName)
      case Err(e) => Err("failed to fetch " + feed.sourceName + " source id: " + e)
      case Ok(sourceId) => Ok(ItemNotices(items, sourceId, uuid, marshal))
  }

  function FeedOutcomes(feeds: seq<Feed>, fetched: seq<Outcome<seq<FeedItem>>>, lookup: string -> Outcome<string>,
                        uuid: FeedItem -> string, marshal: FeedItem -> Option<string>): (r: seq<Outcome<seq<Notice>>>)
    requires |fetched| == |feeds|
    ensures |r| == |feeds|
    ensures forall k :: 0 <= k < |feeds| ==> r[k] == FeedOutcome(feeds[k], fetched[k], lookup, uuid, marshal)
  {
    if feeds == [] then []
    else
      var n := |feeds| - 1;
      FeedOutcomes(feeds[..n], fetched[..n], lookup, uuid, marshal) + [FeedOutcome(feeds[n], fetched[n], lookup, uuid, marshal)]
  }

  /** The source lookups a feed triggers: its name, and only when its fetch succeeded. */
  function LookupTrace(feeds: seq<Feed>, fetched: seq<Outcome<seq<FeedItem>>>): (r: seq<Outcome<seq<string>>>)
    requires |fetched| == |feeds|
    ensures |r| == |feeds|
    ensures forall k :: 0 <= k < |feeds| ==>
      r[k] == if fetched[k].Ok? then Ok([feeds[k].sourceName]) else Err("")
  {
    if feeds == [] then []
    else
      var n := |feeds| - 1;
      LookupTrace(feeds[..n], fetched[..n]) + [if fetched[n].Ok? then Ok([feeds[n].sourceName]) else Err("")]
  }

  /** `handleFeed` for one configured feed, returning what it sends on the two channels
      and the source name it looks up, if any. */
  method HandleFeed(feed: Feed, fetched: Outcome<seq<FeedItem>>, lookup: string -> Outcome<string>,
                    uuid: FeedItem -> string, marshal: FeedItem -> Option<string>)
    returns (sent: Outcome<seq<Notice>>, looked: seq<string>)
    ensures sent == FeedOutcome(feed, fetched, lookup, uuid, marshal)
    ensures looked == if fetched.Ok? then [feed.sourceName] else []
  {
    if fetched.Err? {
      return Err("failed to fetch " + feed.sourceName + ": " + fetched.error), [];
    }
    looked := [feed.sourceName];
    var sourceItem := lookup(feed.sourceName);
    if sourceItem.Err? {
      return Err("failed to fetch " + feed.sourceName + " source id: " + sourceItem.error), looked;
    }
    var notices := NoticesFromFeedItems(fetched.value, sourceItem.value, uuid, marshal);
    sent := Ok(notices);
  }

  /** The receiving loop of `GetAllNotices`: the feeds are handled in arrival order; what
      each one sends is appended to the notices or to the errors. */
  method HandleArrivals(fetched: seq<Outcome<seq<FeedItem>>>, lookup: string -> Outcome<string>, arrival: seq<nat>,
                        uuid: FeedItem -> string, marshal: FeedItem -> Option<string>)
    returns (notices: seq<Notice>, errs: seq<string>, lookups: seq<string>)
    requires |fetched| == |RssFeedPairs|
    requires InBounds(arrival, |RssFeedPairs|)
    ensures notices == Gather(FeedOutcomes(RssFeedPairs, fetched, lookup, uuid, marshal), arrival)
    ensures errs == Failures(FeedOutcomes(RssFeedPairs, fetched, lookup, uuid, marshal), arrival)
    ensures lookups == Gather(LookupTrace(RssFeedPairs, fetched), arrival)
  {
    ghost var outs := FeedOutcomes(RssFeedPairs, fetched, lookup, uuid, marshal);
    ghost var trace := LookupTrace(RssFeedPairs, fetched);
    notices, errs, lookups := [], [], [];
    for j := 0 to |arrival|
      invariant notices == Gather(outs, arrival[..j])
      invariant errs == Failures(outs, arrival[..j])
      invariant lookups == Gather(trace, arrival[..j])
    {
      var k := arrival[j];
      var sent, looked := HandleFeed(RssFeedPairs[k], fetched[k], lookup, uuid, marshal);
      GatherStep(outs, arrival, j);
      GatherStep(trace, arrival, j);
      FailuresStep(outs, arrival, j);
      assert outs[k] == sent && ValuesAt(trace, k) == looked;
      if sent.Err? {
        errs := errs + [sent.error];
      } else {
        notices := notices + sent.value;
      }
      lookups := lookups + looked;
    }
    assert arrival[..|arrival|] == arrival;
  }

  /** `GetAllNotices`: every feed is handled, failures are dropped and only the first error
      to arrive is logged, the successful feeds' notices are concatenated in arrival order,
      and the returned error is always nil. */
  method GetAllNotices(fetched: seq<Outcome<seq<FeedItem>>>, lookup: string -> Outcome<string>, arrival: seq<nat>,
                       uuid: FeedItem -> string, marshal: FeedItem -> Option<string>)
    returns (notices: seq<Notice>, err: Option<string>, logged: Option<string>, lookups: seq<string>)
    requires |fetched| == |RssFeedPairs|
    requires IsPermutation(arrival, |RssFeedPairs|)
    ensures err == None
    ensures multiset(notices) == multiset(Successes(FeedOutcomes(RssFeedPairs, fetched, lookup, uuid, marshal)))
    ensures logged.Some? <==>
      exists k :: 0 <= k < |RssFeedPairs| && FeedOutcome(RssFeedPairs[k], fetched[k], lookup, uuid, marshal).Err?
    ensures logged.Some? ==>
      exists k :: 0 <= k < |RssFeedPairs| && FeedOutcome(RssFeedPairs[k], fetched[k], lookup, uuid, marshal) == Err(logged.value)
    ensures multiset(lookups) == multiset(Successes(LookupTrace(RssFeedPairs, fetched)))
  {
    ghost var outs := FeedOutcomes(RssFeedPairs, fetched, lookup, uuid, marshal);
    PermutationCovers(arrival, |RssFeedPairs|);
    var errs;
    notices, errs, lookups := HandleArrivals(fetched, lookup, arrival, uuid, marshal);
    if |errs| > 0 {
      logged := Some(errs[0]);
      ghost var j :| 0 <= j < |arrival| && outs[arrival[j]] == Err(errs[0]);
      assert FeedOutcome(RssFeedPairs[arrival[j]], fetched[arrival[j]], lookup, uuid, marshal) == Err(logged.value);
    } else {
      logged := None;
      NoFailuresIffAllOk(outs, arrival);
      forall k | 0 <= k < |RssFeedPairs|
        ensures FeedOutcome(RssFeedPairs[k], fetched[k], lookup, uuid, marshal).Ok?
      {
        assert outs[k].Ok?;
      }
    }
    GatherIsPermutationOfSuccesses(outs, arrival);
    GatherIsPermutationOfSuccesses(LookupTrace(RssFeedPairs, fetched), arrival);
    err := None;
  }
}
