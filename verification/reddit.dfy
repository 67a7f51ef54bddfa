/** The link-aggregator adapter: two subreddits queried in parallel, merged all-or-nothing.
    The API client is the parameter `client` (one call per query), client construction
    failing is `initErr`, the hiring filter `FilterHiringPosts` is `filterHiring`,
    `json.Marshal` is `marshal`, `html.UnescapeString` is `unescape`, `uuid.New` is `uuid`. */
module Reddit {
  import opened Models
  import opened Fanout

  const RedditSourceName := "Reddit"
  const Subreddits := ["forhire", "remotejs"]
  const RedditBaseUrl := "https://www.reddit.com/"
  const RedditUserUrl := "https://www.reddit.com/user/"

  /** The fields of a listed post that the adapter reads; `previewImages` holds the source
      URL of each preview image. */
  datatype Post = Post(
    id: string,
    title: string,
    selftextHtml: string,
    permalink: string,
    author: string,
    created: int,
    previewImages: seq<string>)

  /** The arguments of one `GetSubredditPosts` call. */
  datatype Query = Query(subreddit: string, sort: string, duration: string, limit: int)

  /** Every subreddit is asked for its newest posts of the week, at most 20. */
  function SubredditQuery(sr: string): (q: Query)
    ensures q.subreddit == sr && q.sort == "new" && q.duration == "week" && q.limit == 20
  {
    Query(sr, "new", "week", 20)
  }

  /** The error text `handleSubreddit` sends: a literal, neither the subreddit nor the
      cause is substituted into it. */
  const SubredditFetchError := "failed to fetch from #{subreddit}: #{err}"

  /** What `handleSubreddit` sends for one subreddit. */
  function SubredditOutcome(sr: string, client: Query -> Outcome<seq<Post>>,
                            filterHiring: seq<Post> -> seq<Post>): Outcome<seq<Post>>
  {
    match client(SubredditQuery(sr))
    case Err(_) => Err(SubredditFetchError)
    case Ok(posts) => Ok(filterHiring(posts))
  }

  function SubredditOutcomes(subreddits: seq<string>, client: Query -> Outcome<seq<Post>>,
                             filterHiring: seq<Post> -> seq<Post>): (r: seq<Outcome<seq<Post>>>)
    ensures |r| == |subreddits|
    ensures forall k :: 0 <= k < |subreddits| ==> r[k] == SubredditOutcome(subreddits[k], client, filterHiring)
  {
    if subreddits == [] then []
    else
      var n := |subreddits| - 1;
      SubredditOutcomes(subreddits[..n], client, filterHiring) + [SubredditOutcome(subreddits[n], client, filterHiring)]
  }

  /** `GetRedditPosts`: if any subreddit fails the whole call fails with no posts;
      otherwise the filtered posts of every subreddit, in arrival order. */
  method GetRedditPosts(subreddits: seq<string>, client: Query -> Outcome<seq<Post>>,
                        filterHiring: seq<Post> -> seq<Post>, arrival: seq<nat>)
    returns (posts: Outcome<seq<Post>>)
    requires IsPermutation(arrival, |subreddits|)
    ensures posts.Err? <==> exists k :: 0 <= k < |subreddits| && client(SubredditQuery(subreddits[k])).Err?
    ensures posts.Err? ==> posts.error == SubredditFetchError
    ensures posts.Ok? ==>
      multiset(posts.value) == multiset(Successes(SubredditOutcomes(subreddits, client, filterHiring)))
  {
    ghost var outs := SubredditOutcomes(subreddits, client, filterHiring);
    PermutationCovers(arrival, |subreddits|);
    var allPosts: seq<Post> := [];
    var errs: seq<string> := [];
    for j := 0 to |arrival|
      invariant allPosts == Gather(outs, arrival[..j])
      invariant errs == Failures(outs, arrival[..j])
    {
      var k := arrival[j];
      assert arrival[..j + 1][..j] == arrival[..j];
      assert arrival[..j + 1][j] == k;
      var fetched := client(SubredditQuery(subreddits[k]));
      if fetched.Err? {
        errs := errs + [SubredditFetchError];
      } else {
        allPosts := allPosts + filterHiring(fetched.value);
      }
    }
    assert arrival[..|arrival|] == arrival;
    NoFailuresIffAllOk(outs, arrival);
    if |errs| > 0 {
      return Err(errs[0]);
    }
    GatherIsPermutationOfSuccesses(outs, arrival);
    posts := Ok(allPosts);
  }

  /** The notice made from one post. */
  function PostNotice(post: Post, uuid: Post -> string, marshal: Post -> Option<string>,
                      unescape: string -> string): (n: Notice)
    ensures n.sourceId == RedditSourceName && n.guid == post.id && n.title == post.title
    ensures n.body == unescape(post.selftextHtml)
    ensures n.url == RedditBaseUrl + post.permalink
    ensures n.authorName == post.author && n.authorUrl == RedditUserUrl + post.author
    ensures n.imageUrl.Some? <==> |post.previewImages| > 0
    ensures n.imageUrl.Some? ==> n.imageUrl.value == post.previewImages[0]
    ensures marshal(post).None? ==> n.raw == ""
    ensures marshal(post).Some? ==> n.raw == marshal(post).value
    ensures n.publishedDate == Some(post.created)
  {
    Notice(
      id := uuid(post),
      title := post.title,
      body := unescape(post.selftextHtml),
      url := RedditBaseUrl + post.permalink,
      authorName := post.author,
      authorUrl := RedditUserUrl + post.author,
      imageUrl := if |post.previewImages| > 0 then Some(post.previewImages[0]) else None,
      sourceId := RedditSourceName,
      raw := if marshal(post).Some? then marshal(post).value else "",
      guid := post.id,
      publishedDate := Some(post.created))
  }

  function PostNotices(posts: seq<Post>, uuid: Post -> string, marshal: Post -> Option<string>,
                       unescape: string -> string): seq<Notice>
  {
    Map((post: Post) => PostNotice(post, uuid, marshal, unescape), posts)
  }

  /** The mapping loop of `GetNoticesFromPosts`: one notice per post at the same index;
      the image is set afterwards when the post has a preview. */
  method NoticesFromPosts(posts: seq<Post>, uuid: Post -> string, marshal: Post -> Option<string>,
                          unescape: string -> string)
    returns (notices: seq<Notice>)
    ensures |notices| == |posts|
    ensures forall i :: 0 <= i < |posts| ==> notices[i] == PostNotice(posts[i], uuid, marshal, unescape)
    ensures notices == PostNotices(posts, uuid, marshal, unescape)
  {
    var slots := new Notice[|posts|];
    for i := 0 to |posts|
      invariant forall k :: 0 <= k < i ==> slots[k] == PostNotice(posts[k], uuid, marshal, unescape)
    {
      var post := posts[i];
      var jsonData := marshal(post);
      var raw := if jsonData.Some? then jsonData.value else "";
      var newNotice := Notice(uuid(post), post.title, unescape(post.selftextHtml), RedditBaseUrl + post.permalink,
                              post.author, RedditUserUrl + post.author, None, RedditSourceName, raw, post.id,
                              Some(post.created));
      if |post.previewImages| > 0 {
        newNotice := newNotice.(imageUrl := Some(post.previewImages[0]));
      }
      slots[i] := newNotice;
    }
    notices := slots[..];
  }

  /** `GetNoticesFromPosts`: a handler failure or a posts failure comes back as a wrapped
      error with no notices; otherwise every gathered post becomes one notice. */
  method GetNoticesFromPosts(initErr: Option<string>, client: Query -> Outcome<seq<Post>>,
                             filterHiring: seq<Post> -> seq<Post>, arrival: seq<nat>,
                             uuid: Post -> string, marshal: Post -> Option<string>, unescape: string -> string)
    returns (result: Outcome<seq<Notice>>)
    requires IsPermutation(arrival, |Subreddits|)
    ensures initErr.Some? ==>
      result == Err("failed to load handler for reddit: error connecting to reddit client " + initErr.value)
    ensures initErr.None? ==>
      (result.Err? <==> exists k :: 0 <= k < |Subreddits| && client(SubredditQuery(Subreddits[k])).Err?)
    ensures initErr.None? && result.Err? ==>
      result.error == "failed to load posts from reddit: " + SubredditFetchError
    ensures result.Ok? ==>
      multiset(result.value) ==
        multiset(PostNotices(Successes(SubredditOutcomes(Subreddits, client, filterHiring)), uuid, marshal, unescape))
  {
    if initErr.Some? {
      return Err("failed to load handler for reddit: error connecting to reddit client " + initErr.value);
    }
    var posts := GetRedditPosts(Subreddits, client, filterHiring, arrival);
    if posts.Err? {
      return Err("failed to load posts from reddit: " + posts.error);
    }
    var notices := NoticesFromPosts(posts.value, uuid, marshal, unescape);
    MapPermutation((post: Post) => PostNotice(post, uuid, marshal, unescape), posts.value,
                   Successes(SubredditOutcomes(Subreddits, client, filterHiring)));
    result := Ok(notices);
  }
}
