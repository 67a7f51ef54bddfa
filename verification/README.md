# job-scraper, modelled in Dafny

A model of the Go program `job-scraper`. One run of the program does one of two things.

**Scrape.**
- It collects job postings ("notices") from three kinds of source:
  - nine syndication feeds;
  - two subreddits;
  - the comments under the current Hacker News "Who is hiring" post.
- It maps every posting to one `Notice` record.
- It inserts the batch into the `Notice` table with `INSERT ... ON CONFLICT (guid, "sourceId") DO NOTHING`.
- It compares the row count before and after the insert.
- When something is new, it sends the latest notices to a chat channel as embeds.

**Digest.** With `-markdown` it writes a plain Markdown digest of the latest notices instead. `markdown.go` holds a richer digest writer; it is modelled too.

Modules, one per source file:

- `Models`: the `Notice` record, `Option` and `Outcome` (Go's `(T, error)`), and the store key `(guid, sourceId)`.
- `Fanout`: the goroutine fan-out and fan-in pattern the three adapters share.
  - Each endpoint's result is an input.
  - The order in which results come off the channels is an input `order`: any permutation of the endpoint indices.
  - Every result is therefore stated for all receive orders. It is a permutation (`multiset`) of the successful endpoints' items in configuration order.
- `Text`: joining the successive `WriteString` calls, the infix relation, and byte truncation.
- `HackerNews`, `RssFeed`, `Reddit`: the three adapters.
- `Store`: the notice table as a class whose `rows` the methods update.
- `Markdown`: `markdown.go`.
- `Discord`: `pkg/discord/discord.go`.
- `Scraper`: `main.go`, the run itself.

Calls into code outside the model are function-typed parameters:
- HTML unescaping and escaping;
- the HTML-to-Markdown converter;
- `json.Marshal`;
- `uuid.New`;
- the Reddit client and `FilterHiringPosts`;
- `GetSourceByName`, `GetLatest` and `GetLatestNotices`;
- a chat send.

Network, database and file-system answers are inputs.

Strings are sequences of bytes-as-characters, so `|s|` is Go's `len(s)`.

## Model

| member | source | states |
|---|---|---|
| Fanout.GatherIsPermutationOfSuccesses | pkg/rss_feed/rss_feed.go:101-122 | whatever the receive order, the join collects a permutation of the successful endpoints' items concatenated in configuration order |
| Fanout.GatherOrderIrrelevant | pkg/reddit/reddit.go:67-87 | two receive orders that name the same endpoints collect the same items up to order |
| Fanout.Failures | pkg/rss_feed/rss_feed.go:82-99 | the error channel is empty exactly when every endpoint succeeded; each message on it is the error of some endpoint |
| Fanout.NoFailuresIffAllOk | pkg/reddit/reddit.go:78-80 | no error arrives if and only if every endpoint succeeded |
| Fanout.InSuccesses | pkg/reddit/reddit.go:82-87 | an item is among the gathered items exactly when some endpoint succeeded with it |
| Fanout.MapPermutation | pkg/reddit/reddit.go:103-130 | mapping each element of two permutations of each other gives two permutations of each other |
| Text.Truncate | markdown.go:27-30 | text no longer than the limit is kept whole; longer text becomes its first `length` bytes and "..."; never more than `length + 3` bytes |
| Text.TruncateIdempotent | markdown.go:27-30 | truncating a truncated text changes nothing |
| Text.JoinAppend | markdown.go:70-77 | writing two runs of parts one after the other writes their concatenation |
| Text.JoinContainsPart | markdown.go:70-77 | every part written is found in the written text |
| HackerNews.IndexOf | pkg/hackernews/hackernews.go:42 | the first position of the character, or -1 exactly when it does not occur |
| HackerNews.SplitTitle | pkg/hackernews/hackernews.go:42-51 | split before the first `<` (title without `<`, body starting with `<`); otherwise at byte 20 when longer; otherwise the text is both title and body |
| HackerNews.StripBrackets | pkg/hackernews/hackernews.go:53-69 | the cleaned title holds no bracket character and is no longer than the title |
| HackerNews.StripBracketsKeepsOthers | pkg/hackernews/hackernews.go:53-69 | every non-bracket character is kept as often as it occurs; a title without brackets is unchanged |
| HackerNews.StripBracketsAppend | pkg/hackernews/hackernews.go:57-67 | the characters are filtered one at a time: cleaning a concatenation cleans each part and keeps them in their order |
| HackerNews.StripBracketsOfChar | pkg/hackernews/hackernews.go:58-66 | a single character is dropped when it is one of the six brackets and kept otherwise |
| HackerNews.ExtractTitle | pkg/hackernews/hackernews.go:38-76 | the stack loop keeps exactly the non-bracket characters; both parts are unescaped; the body is the text from the first `<` or the whole short text |
| HackerNews.DecimalString | pkg/hackernews/hackernews.go:169 | the guid text of an id is a '-' for a negative id followed by decimal digits with no leading zero, "0" only for zero |
| HackerNews.CanonicalIsNatDigits | pkg/hackernews/hackernews.go:169 | every digit string without a leading zero is the decimal text of its value, so the guid is the only canonical spelling of the id |
| HackerNews.DecimalRoundTrip | pkg/hackernews/hackernews.go:169 | the decimal guid of a story reads back as the story id, negative ids included |
| HackerNews.StoryToNotice | pkg/hackernews/hackernews.go:156-172 | source "HackerNews", no image, the raw bytes, the item and user URLs, the id's decimal text (`fmt.Sprint`) as guid, which reads back as the id, the publish time, and the extracted title and body |
| HackerNews.StoryKeysDistinct | pkg/hackernews/hackernews.go:169 | stories with different ids never share a store key |
| HackerNews.FilterOutLessThan10Len | pkg/hackernews/hackernews.go:174-179 | a notice is kept if and only if its title or its body has at least 10 bytes |
| HackerNews.InsertDescending | pkg/hackernews/hackernews.go:120 | inserting into a descending sequence keeps it descending and adds exactly the element |
| HackerNews.SortDescending | pkg/hackernews/hackernews.go:119-120 | the sorted copy is descending and a permutation of the kids |
| HackerNews.ChosenKids | pkg/hackernews/hackernews.go:119-129 | `min(toGet, len(kids))` ids, descending, drawn from the kids, none smaller than any kid left out |
| HackerNews.SuccessesAtMostOneEach | pkg/hackernews/hackernews.go:136-141 | each fetched story contributes at most one notice |
| HackerNews.KeptNoticesExactly | pkg/hackernews/hackernews.go:129-141 | a notice comes back if and only if it is the mapping of a story fetched for a selected id that passes the length filter |
| HackerNews.ReceiveStory | pkg/hackernews/hackernews.go:136-141 | a received story contributes its notice when it passes the length filter, and a story that was never sent contributes nothing |
| HackerNews.CollectStories | pkg/hackernews/hackernews.go:124-141 | for any arrival order, the notices are a permutation of the kept stories in id order, at most one per id |
| HackerNews.ScrapeCurrentWhoIsHiringPosts | pkg/hackernews/hackernews.go:104-146 | an undecodable parent gives no notices; otherwise the kept stories of the chosen kids, at most `min(toGet, len(kids))` |
| RssFeed.ItemNotice | pkg/rss_feed/rss_feed.go:46-72 | title, description, link, guid, date and source id copied; image only when present; first author's name and email, else empty; raw is the JSON or empty |
| RssFeed.NoticesFromFeedItems | pkg/rss_feed/rss_feed.go:43-76 | the preallocated slice holds, at each index, the notice of the item at that index |
| RssFeed.HandleFeed | pkg/rss_feed/rss_feed.go:84-99 | a fetch error, else a source-lookup error, each wrapped with the feed name; else the feed's notices under the looked-up id; the lookup happens only after a successful fetch |
| RssFeed.HandleArrivals | pkg/rss_feed/rss_feed.go:101-120 | what the join collects in arrival order: the notices and errors of each feed and the lookups it made |
| RssFeed.GetAllNotices | pkg/rss_feed/rss_feed.go:78-123 | the error is always nil; the notices are a permutation of every successful feed's notices; an error is logged if and only if some feed failed, and it is one feed's error; one lookup per fetched feed |
| Reddit.SubredditQuery | pkg/reddit/reddit.go:57 | every subreddit is asked for its "new" posts of the "week", limit 20 |
| Reddit.GetRedditPosts | pkg/reddit/reddit.go:50-88 | the call fails if and only if some subreddit query fails, with the literal error text; otherwise a permutation of every subreddit's filtered posts |
| Reddit.PostNotice | pkg/reddit/reddit.go:105-127 | source "Reddit", post id as guid, unescaped body, permalink and user URLs, first preview image when there is one, raw JSON or empty, creation time |
| Reddit.NoticesFromPosts | pkg/reddit/reddit.go:103-130 | the preallocated slice holds, at each index, the notice of the post at that index |
| Reddit.GetNoticesFromPosts | pkg/reddit/reddit.go:92-133 | a client failure and a posts failure come back wrapped, with no notices; otherwise a permutation of the notices of all gathered posts |
| Store.KeysOfMembers | pkg/store/notice.go:47 | a key is in the table's key set exactly when some row carries it |
| Store.InsertAll | pkg/store/notice.go:47-73 | existing rows are kept in place, at most one row is added per notice, and the key set becomes the union of the old keys and the batch keys |
| Store.InsertAllKeepsUniqueKeys | pkg/store/notice.go:47 | inserting keeps the (guid, sourceId) pair unique |
| Store.InsertAllOfPresentKeys | pkg/store/notice.go:47 | a batch whose keys are all stored leaves the table unchanged |
| Store.InsertAllIdempotent | pkg/store/notice.go:21-74 | inserting the same batch twice leaves the table as inserting it once |
| Store.NewRowsAreFirstOccurrences | pkg/store/notice.go:47-66 | every added row is the first notice of the batch with a key not already stored |
| Store.FreshKeyIsStored | pkg/store/notice.go:47-66 | a notice whose key is new to the table and to the rest of the batch is stored |
| Store.SameGuidDifferentSources | pkg/store/notice.go:47 | two new notices with the same guid from two sources are both stored, in order |
| Store.UniqueKeysCount | pkg/store/notice.go:47 | with unique keys the row count is the number of keys |
| Store.InsertAllCountDelta | pkg/store/notice.go:76-83 | with unique keys the count rises by exactly the number of batch keys new to the table |
| Store.FindById | pkg/store/notice.go:85-107 | a found row is in the table with that id; "no rows in result set" exactly when no row has the id |
| Store.ScanRow | pkg/store/notice.go:87-100 | the scan succeeds if and only if the query returns as many columns as there are destinations |
| Store.GetNoticeAsWrittenAlwaysFails | pkg/store/notice.go:87-100 | with every inserted and every scanned column in the table, `GetNotice` as written fails for every id |
| Store.NoticeStore.constructor | pkg/store/notice.go:17-19 | the store starts with the given rows |
| Store.NoticeStore.InsertOnConflictDoNothing | pkg/store/notice.go:22-47 | a row is appended only when its key is absent; key uniqueness is kept |
| Store.NoticeStore.CreateNotices | pkg/store/notice.go:21-74 | a refused batch returns its error and leaves the table unchanged; otherwise the inserts take effect in slice order; key uniqueness is kept |
| Store.NoticeStore.GetCount | pkg/store/notice.go:76-83 | the number of rows, or 0 when the query fails |
| Store.NoticeStore.GetNotice | pkg/store/notice.go:85-107 | the row with the id, or the no-rows error exactly when none has it |
| Markdown.StripTags | markdown.go:20-21 | the result holds no `<` and is no longer than the text |
| Markdown.StripTagsKeepsPlainPrefix | markdown.go:20-21 | a prefix without `<` is kept as it is |
| Markdown.StripTagsOfPlainText | markdown.go:20-21 | a text without `<` is unchanged |
| Markdown.StripTagsRemovesTag | markdown.go:20-21 | a complete tag is removed with its delimiters and nothing before it changes |
| Markdown.StripTagsRemovesUnclosedTag | markdown.go:20-21 | a `<` never closed removes the rest of the text (the optional `>`) |
| Markdown.StripTagsIdempotent | markdown.go:20-21 | stripping twice is stripping once |
| Markdown.PrintToHtmlAndTruncate | markdown.go:17-31 | unescape, strip tags, unescape again, then the first `length` bytes and "..." when longer, else the whole text |
| Markdown.Sections | markdown.go:70-77 | one section per notice, at the same index |
| Markdown.Document | markdown.go:65-67 | the digest starts with the title line and the date |
| Markdown.DocumentContainsSection | markdown.go:70-77 | every section written is found in the digest |
| Markdown.RichDocumentAppend | markdown.go:70-77 | the digest of two runs of notices is the first run's digest followed by the second run's sections |
| Markdown.SectionLines | markdown.go:72-76 | each section holds the notice's origin line and its escaped site link, and ends with the separator |
| Markdown.RichDocumentMentionsEachNotice | markdown.go:70-77 | every latest notice's origin and site link appear in the digest |
| Markdown.WriteSection | markdown.go:72-76 | the five writes for one notice append exactly its section |
| Markdown.GenerateMarkdown | markdown.go:33-78 | nothing is written when the notices cannot be read or the file cannot be created; otherwise the header, then each notice's section in order |
| Discord.ConvertToSiteUrl | pkg/discord/discord.go:24-26 | the site URL followed by the id |
| Discord.SiteUrlInjective | pkg/discord/discord.go:24-26 | distinct ids get distinct site pages |
| Discord.EmbedForContents | pkg/discord/discord.go:37-53 | the notice's title and URL; the converted body whole up to 500 bytes, else its first 500 bytes and "..."; then the site link |
| Discord.BuildEmbed | pkg/discord/discord.go:39-53 | the loop body builds the embed of the notice |
| Discord.Embeds | pkg/discord/discord.go:38-56 | one embed per notice, at the same index |
| Discord.SendEmbed | pkg/discord/discord.go:28-34 | one send: a failure gives exactly one log line, "Failed to send embed: " and the error; a success gives none |
| Discord.SendFailures | pkg/discord/discord.go:28-34 | exactly one log line per failed send: as many lines as failed sends, each failed send's error appears prefixed by "Failed to send embed: ", every line is such a message, and there are none exactly when every send succeeds |
| Discord.SendList | pkg/discord/discord.go:36-57 | every notice is sent in order as its embed; the failed sends are logged and the loop goes on |
| Scraper.GetRssFeedNotices | main.go:41-48 | notices pass through; an adapter error is wrapped |
| Scraper.MergedBatch | main.go:71-72 | the feed notices, then the Reddit notices, then the Hacker News notices |
| Scraper.FailedSourceContributesNothing | main.go:63-72 | a failed source is merged as if it had found nothing |
| Scraper.ReportCountsNewKeys | main.go:76-88 | with both counts read and unique stored keys, a run that stored its batch stops before notifying exactly when every batch key was already stored, and otherwise reports the number of batch keys new to the table |
| Scraper.Notify | main.go:92-100 | embeds are sent only when the chat client is ready |
| Scraper.ReportInserted | main.go:85-100 | a zero delta ends the run; otherwise that many latest notices are read back and sent when the client is ready |
| Scraper.StoreAndReport | main.go:75-104 | a refused batch ends the run with the table unchanged; otherwise the table gains the batch, the count difference decides the notification, and with both counts read it is the number of new batch keys; unique keys stay unique |
| Scraper.Scrape | main.go:55-104 | no database ends the run; a refused batch ends it with the table unchanged; otherwise the merged batch is inserted and the count delta decides the notification; with both counts read, the run stops exactly when no batch key is new and otherwise reports how many are |
| Scraper.PlainSectionLines | main.go:144-147 | each plain section holds the author line and the site link with the id as stored (not escaped), and ends with the separator |
| Scraper.PlainDocumentMentionsEachNotice | main.go:138-148 | every latest notice's author and site link appear in the plain digest |
| Scraper.WritePlainSection | main.go:144-147 | the four writes for one notice append exactly its section |
| Scraper.GenerateMarkdown | main.go:106-149 | nothing is written when the notices cannot be read or the file cannot be created; otherwise the header, then each notice's plain section in order |
| Scraper.ModeFor | main.go:151-161 | the `-markdown` flag selects the digest, its absence the scrape |

## Left out

- Network, database and file-system I/O, environment variables and logging are left out. Their answers are inputs: fetch results, `dbConnected`, `batchError`, `countBeforeOk`, `countAfterOk`, `fileCreated`, `chatReady`, the send results and the date. The log lines of `scrape` and of the Hacker News fetches are not modelled.
- Goroutines and `sync.WaitGroup` are not modelled. The buffered channels are drained after `wg.Wait()`, so only the receive order matters; it is the input `arrival`.
- RssFeed.HandleFeed: feed k is handled with the k-th configured feed. `go handleFeed(&rssFeedPair)` at pkg/rss_feed/rss_feed.go:104 takes the loop variable's address. Under Go versions before 1.22 every goroutine could then see the last feed; that sharing is not modelled.
- Calls into other code are parameters, not models:
  - HTML unescaping and escaping;
  - the HTML-to-Markdown converter (its error is ignored by `SendList`, so it is total here);
  - `json.Marshal` (None when it fails);
  - `uuid.New`;
  - `GetSourceByName`, `FilterHiringPosts`, `GetLatest`, `GetLatestNotices` and the Reddit client.
- Because `uuid.New` is a parameter, the distinctness of generated ids is not modelled.
- `FetchItems`, `getStory` and `InitRedditHandler`/`GetRedditHandler` are modelled only by their outcomes:
  - feed parsing and the Hacker News HTTP/read/decode chain become per-endpoint `Outcome`/`Option` inputs;
  - client construction becomes `initErr`.
- HackerNews.ScrapeCurrentWhoIsHiringPosts:
  - A failed GET of the parent item is not modelled; the source goes on to read `resp.Body` of a nil response.
  - The package variable `toGet` is shrunk in place and never restored. The model takes it as the parameter `toGet`, so the shrinking across calls is not captured.
- HackerNews.SortDescending: `sort.Slice` is library code. It is modelled by value as an insertion sort that is proved descending and a permutation, not as an in-place sort.
- HackerNews.ExtractTitle: Go ranges over the title as runes. The model's characters are bytes, so a multi-byte character is not decoded.
- Reddit.PostNotice: `GetTimeCreated` returns a float that `int64(...)` truncates; the model's `created` is already that whole second, so the truncation is not modelled.
- Store.NoticeStore.CreateNotices:
  - The driver's batch mechanics are reduced to one input, `batchError`. A refused batch is assumed to have applied none of its inserts; the driver's implicit batch transaction is not visible in the source.
  - The driver reports an error for an empty batch. That error comes in through the same input rather than being derived.
- `GetLatest` and `GetLatestNotices` are parameters, so the order and contents of "latest" are not stated.
- Scraper.Scrape: a failed count query makes `GetCount` return 0, so the delta may be negative or too large. The model passes that value on unchanged and states the delta as new keys only when both counts were read.
- `SendSuccessNotificatioin` (its message and time formatting) and `InitDiscordClient` are not modelled beyond the `chatReady` input.
- `pkg/errors.go` only writes a log line: `HandleErrorWithSection` neither stops nor changes the run, so every call of it is omitted.
- main.go:42 calls `rss_feed.GetAllNotices()` without the `*store.Source` argument its declaration takes. The model gives the adapter its lookup as a parameter.
- A multi-endpoint adapter can either drop only the failing endpoints or fail as a whole; the code differs per adapter, and the model follows the code:
  - the feeds succeed partially;
  - the subreddits are all-or-nothing;
  - a Hacker News story that fails is dropped.
- A database failure or a refused batch ends the run with `log.Fatalf`. These are the `DatabaseUnavailable` and `InsertFailed` reports.

## Findings

| source | as written | input that shows it | evidently intended | confidence | as-written member | corrected member |
|---|---|---|---|---|---|---|
| pkg/store/notice.go:87-100 | `SELECT *` is scanned into 12 destinations, but the table has the 11 inserted columns plus `createdAt` and `updatedAt`, so at least 13 | any id of a stored notice: the row is found, and the scan fails because the column and destination counts differ | return the stored notice with that id | not executed | Store.GetNoticeAsWrittenAlwaysFails | Store.NoticeStore.GetNotice |
