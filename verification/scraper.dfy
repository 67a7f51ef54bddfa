/** One run of the program (main.go): either scrape every source into the store and notify
    the chat channel about what is new, or write the plain digest of the latest notices.
    What the sources, the database and the chat client answer are inputs. */
module Scraper {
  import opened Models
  import opened Fanout
  import opened Text
  import Store
  import Markdown
  import Discord

  /** `getRssFeedNotices`: a failure of the feed adapter is wrapped. */
  function GetRssFeedNotices(fromFeeds: Outcome<seq<Notice>>): (r: Outcome<seq<Notice>>)
    ensures r.Ok? <==> fromFeeds.Ok?
    ensures r.Ok? ==> r.value == fromFeeds.value
    ensures r.Err? ==> r.error == "error getting Notices from RSS feeds: " + fromFeeds.error
  {
    match fromFeeds
    case Ok(notices) => Ok(notices)
    case Err(e) => Err("error getting Notices from RSS feeds: " + e)
  }

  /** The batch handed to the store: the feed notices, then the link-aggregator notices,
      then the forum notices; a source that failed contributes nothing. */
  function MergedBatch(rss: Outcome<seq<Notice>>, reddit: Outcome<seq<Notice>>, hn: seq<Notice>): (batch: seq<Notice>)
    ensures |batch| == |Values(rss)| + |Values(reddit)| + |hn|
    ensures batch[..|Values(rss)|] == Values(rss)
    ensures batch[|Values(rss)|..|Values(rss)| + |Values(reddit)|] == Values(reddit)
    ensures batch[|Values(rss)| + |Values(reddit)|..] == hn
  {
    Values(rss) + Values(reddit) + hn
  }

  /** A failed source leaves the batch as if it had found nothing. */
  lemma FailedSourceContributesNothing(rss: Outcome<seq<Notice>>, reddit: Outcome<seq<Notice>>,
                                       hn: seq<Notice>, e: string)
    ensures MergedBatch(Err(e), reddit, hn) == MergedBatch(Ok([]), reddit, hn)
    ensures MergedBatch(rss, Err(e), hn) == MergedBatch(rss, Ok([]), hn)
  {
    assert MergedBatch(Err(e), reddit, hn)[..0] == [];
  }

  /** What a scrape run ends with. `inserted` is the count after the insert minus the count
      before; `latest` is what was read back for it and `embeds` what was sent. */
  datatype Report =
    | DatabaseUnavailable
    | InsertFailed(error: string)
    | NothingNew(matched: nat)
    | Reported(matched: nat, inserted: int, latest: seq<Notice>, embeds: seq<Discord.Embed>, notified: bool)

  /** The notification step: the latest notices go to the channel only when the chat
      client is ready. */
  method Notify(latest: seq<Notice>, chatReady: bool, toMarkdown: string -> string,
                send: Discord.Embed -> Option<string>)
    returns (embeds: seq<Discord.Embed>)
    ensures chatReady ==> embeds == Discord.Embeds(latest, toMarkdown)
    ensures !chatReady ==> embeds == []
  {
    embeds := [];
    if chatReady {
      var logged;
      embeds, logged := Discord.SendList(latest, toMarkdown, send);
    }
  }

  /** How a run that stored its batch ends: it stops when the count did not change;
      otherwise it reads back that many latest notices and, when the chat client is ready,
      sends one embed for each. */
  predicate EndsAfterInsert(report: Report, matched: nat, inserted: int, getLatest: int -> seq<Notice>,
                            chatReady: bool, toMarkdown: string -> string)
  {
    (inserted == 0 ==> report == NothingNew(matched))
    && (inserted != 0 ==>
          report.Reported? && report.matched == matched && report.inserted == inserted
          && report.latest == getLatest(inserted) && report.notified == chatReady
          && (chatReady ==> report.embeds == Discord.Embeds(getLatest(inserted), toMarkdown))
          && (!chatReady ==> report.embeds == []))
  }

  /** The end of a run once the batch is stored. */
  method ReportInserted(matched: nat, inserted: int, getLatest: int -> seq<Notice>, chatReady: bool,
                        toMarkdown: string -> string, send: Discord.Embed -> Option<string>)
    returns (report: Report)
    ensures EndsAfterInsert(report, matched, inserted, getLatest, chatReady, toMarkdown)
  {
    if inserted == 0 {
      return NothingNew(matched);
    }
    var latestPosts := getLatest(inserted);
    var embeds := Notify(latestPosts, chatReady, toMarkdown, send);
    report := Reported(matched, inserted, latestPosts, embeds, chatReady);
  }

  /** The run stopped exactly when no key of the batch was new to `rows`, and otherwise
      reported as inserted the number of batch keys that were new. */
  predicate CountsNewKeys(report: Report, rows: seq<Notice>, batch: seq<Notice>)
  {
    && (report.NothingNew? || report.Reported?)
    && (report.NothingNew? <==> Store.KeysOf(batch) <= Store.KeysOf(rows))
    && (report.Reported? ==> report.inserted == |Store.KeysOf(batch) - Store.KeysOf(rows)|)
  }

  /** With both counts read and the stored keys unique, a run that stored its batch stops
      exactly when every key of the batch was already stored, and otherwise reports as
      inserted the number of batch keys that were new to the table. */
  lemma ReportCountsNewKeys(rows: seq<Notice>, batch: seq<Notice>, report: Report, matched: nat,
                            getLatest: int -> seq<Notice>, chatReady: bool, toMarkdown: string -> string)
    requires Store.UniqueKeys(rows)
    requires EndsAfterInsert(report, matched, |Store.InsertAll(rows, batch)| - |rows|, getLatest, chatReady, toMarkdown)
    ensures report.NothingNew? || report.Reported?
    ensures report.NothingNew? <==> Store.KeysOf(batch) <= Store.KeysOf(rows)
    ensures report.Reported? ==> report.inserted == |Store.KeysOf(batch) - Store.KeysOf(rows)|
    ensures CountsNewKeys(report, rows, batch)
  {
    Store.InsertAllCountDelta(rows, batch);
    var newKeys := Store.KeysOf(batch) - Store.KeysOf(rows);
    if newKeys != {} {
      var k :| k in newKeys;
      assert |newKeys| > 0;
    }
  }

  /** How a connected run ends, from the table `before` to the table `after`: a refused
      batch ends it with the table unchanged; otherwise the table is `before` with the
      batch inserted, the difference of the two counts decides the notification, and with
      both counts read and unique stored keys that difference is the number of new keys. */
  predicate RunEnds(report: Report, before: seq<Notice>, after: seq<Notice>, batch: seq<Notice>,
                    countBeforeOk: bool, batchError: Option<string>, countAfterOk: bool,
                    getLatest: int -> seq<Notice>, chatReady: bool, toMarkdown: string -> string)
  {
    && (batchError.Some? ==> report == InsertFailed(batchError.value) && after == before)
    && (batchError.None? ==> after == Store.InsertAll(before, batch))
    && (batchError.None? ==>
          EndsAfterInsert(report, |batch|,
                          (if countAfterOk then |after| else 0) - (if countBeforeOk then |before| else 0),
                          getLatest, chatReady, toMarkdown))
    && (batchError.None? && countBeforeOk && countAfterOk && Store.UniqueKeys(before) ==>
          CountsNewKeys(report, before, batch))
  }

  /** The second half of `scrape`, once the batch is merged: count, insert, count again,
      and end as `ReportInserted` does with the difference of the counts. */
  method StoreAndReport(store: Store.NoticeStore, batch: seq<Notice>,
                        countBeforeOk: bool, batchError: Option<string>, countAfterOk: bool,
                        getLatest: int -> seq<Notice>, chatReady: bool,
                        toMarkdown: string -> string, send: Discord.Embed -> Option<string>)
    returns (report: Report)
    modifies store
    ensures RunEnds(report, old(store.rows), store.rows, batch, countBeforeOk, batchError, countAfterOk,
                    getLatest, chatReady, toMarkdown)
    ensures Store.UniqueKeys(old(store.rows)) ==> Store.UniqueKeys(store.rows)
  {
    ghost var before := store.rows;
    var oldNoticeCount := store.GetCount(countBeforeOk);
    var err := store.CreateNotices(batch, batchError);
    if err.Some? {
      return InsertFailed(err.value);
    }
    var newNoticeCount := store.GetCount(countAfterOk);
    report := ReportInserted(|batch|, newNoticeCount - oldNoticeCount, getLatest, chatReady, toMarkdown, send);
    if countBeforeOk && countAfterOk && Store.UniqueKeys(before) {
      ReportCountsNewKeys(before, batch, report, |batch|, getLatest, chatReady, toMarkdown);
    }
  }

  /** `scrape`: connect, gather the three sources, insert, compare the counts, and when
      something is new read back that many latest notices and send them to the channel if
      the chat client is ready. Logging calls are left out. */
  method Scrape(store: Store.NoticeStore, dbConnected: bool,
                rssFromFeeds: Outcome<seq<Notice>>, reddit: Outcome<seq<Notice>>, hn: seq<Notice>,
                countBeforeOk: bool, batchError: Option<string>, countAfterOk: bool,
                getLatest: int -> seq<Notice>, chatReady: bool,
                toMarkdown: string -> string, send: Discord.Embed -> Option<string>)
    returns (report: Report)
    modifies store
    ensures !dbConnected ==> report == DatabaseUnavailable && store.rows == old(store.rows)
    ensures dbConnected ==>
      RunEnds(report, old(store.rows), store.rows, MergedBatch(GetRssFeedNotices(rssFromFeeds), reddit, hn),
              countBeforeOk, batchError, countAfterOk, getLatest, chatReady, toMarkdown)
    ensures Store.UniqueKeys(old(store.rows)) ==> Store.UniqueKeys(store.rows)
  {
    if !dbConnected {
      return DatabaseUnavailable;
    }
    var rssFeedNotices := GetRssFeedNotices(rssFromFeeds);
    var allNotices := Values(rssFeedNotices) + Values(reddit);
    allNotices := allNotices + hn;
    assert allNotices == MergedBatch(rssFeedNotices, reddit, hn);
    report := StoreAndReport(store, allNotices, countBeforeOk, batchError, countAfterOk,
                             getLatest, chatReady, toMarkdown, send);
  }

  const PlainSeparator := "---\n"

  function AuthorLine(n: Notice): string
  {
    "**Author**: " + n.authorName + "\n"
  }

  function PlainReadMoreLine(n: Notice): string
  {
    "**Read more**: [Here](" + SiteUrl + n.id + ")\n"
  }

  /** The four lines `generateMarkdown` writes for one notice: title, author, link to the
      site (the id is not escaped here) and separator. */
  function PlainSection(n: Notice): string
  {
    "## " + n.title + "\n" + AuthorLine(n) + PlainReadMoreLine(n) + PlainSeparator
  }

  function PlainSections(notices: seq<Notice>): (r: seq<string>)
    ensures |r| == |notices|
    ensures forall i :: 0 <= i < |notices| ==> r[i] == PlainSection(notices[i])
  {
    if notices == [] then [] else PlainSections(notices[..|notices| - 1]) + [PlainSection(notices[|notices| - 1])]
  }

  /** Each notice's author line and site link are in its section, which ends with the
      separator. */
  lemma PlainSectionLines(n: Notice)
    ensures IsInfix(AuthorLine(n), PlainSection(n))
    ensures IsInfix(PlainReadMoreLine(n), PlainSection(n))
    ensures var s := PlainSection(n); |s| >= 4 && s[|s| - 4..] == PlainSeparator
  {
    var title := "## " + n.title + "\n";
    InfixOfConcat(AuthorLine(n), title, PlainReadMoreLine(n) + PlainSeparator);
    assert PlainSection(n) == title + AuthorLine(n) + (PlainReadMoreLine(n) + PlainSeparator);
    InfixOfConcat(PlainReadMoreLine(n), title + AuthorLine(n), PlainSeparator);
  }

  /** Every latest notice's author and site link appear in the plain digest. */
  lemma PlainDocumentMentionsEachNotice(date: string, notices: seq<Notice>, k: nat)
    requires k < |notices|
    ensures IsInfix(AuthorLine(notices[k]), Markdown.Document(date, PlainSections(notices)))
    ensures IsInfix(PlainReadMoreLine(notices[k]), Markdown.Document(date, PlainSections(notices)))
  {
    var sections := PlainSections(notices);
    var doc := Markdown.Document(date, sections);
    Markdown.DocumentContainsSection(date, sections, k);
    PlainSectionLines(notices[k]);
    InfixTransitive(AuthorLine(notices[k]), sections[k], doc);
    InfixTransitive(PlainReadMoreLine(notices[k]), sections[k], doc);
  }

  lemma PlainSectionsStep(notices: seq<Notice>, i: nat)
    requires i <= |notices|
    ensures i == 0 ==> Join(PlainSections(notices[..i])) == ""
    ensures i > 0 ==>
      Join(PlainSections(notices[..i])) == Join(PlainSections(notices[..i - 1])) + PlainSection(notices[i - 1])
  {
    if i > 0 {
      assert notices[..i][..i - 1] == notices[..i - 1];
    } else {
      assert notices[..i] == [];
    }
  }

  /** The four `WriteString` calls for one notice. */
  method WritePlainSection(doc: string, notice: Notice) returns (doc': string)
    ensures doc' == doc + PlainSection(notice)
  {
    var l1, l2, l3 := "## " + notice.title + "\n", "**Author**: " + notice.authorName + "\n",
                      "**Read more**: [Here](" + SiteUrl + notice.id + ")\n";
    doc' := doc + l1;
    doc' := doc' + l2;
    doc' := doc' + l3;
    doc' := doc' + "---\n";
    assert PlainSection(notice) == l1 + l2 + l3 + PlainSeparator;
  }

  /** `generateMarkdown` of main.go: when the latest notices are read and the file is
      created, the header and then each notice's plain section are written; otherwise
      nothing is written. */
  method GenerateMarkdown(latest: Outcome<seq<Notice>>, fileCreated: bool, date: string)
    returns (written: Option<string>)
    ensures latest.Err? || !fileCreated ==> written == None
    ensures latest.Ok? && fileCreated ==> written == Some(Markdown.Document(date, PlainSections(latest.value)))
  {
    if latest.Err? || !fileCreated {
      return None;
    }
    var notices := latest.value;
    var doc := "# Latest Notices\n";
    doc := doc + date + "\n\n";
    PlainSectionsStep(notices, 0);
    for i := 0 to |notices|
      invariant doc == Markdown.Header(date) + Join(PlainSections(notices[..i]))
    {
      PlainSectionsStep(notices, i + 1);
      ghost var before := Join(PlainSections(notices[..i]));
      doc := WritePlainSection(doc, notices[i]);
      AppendAssociative(Markdown.Header(date), before, PlainSection(notices[i]));
    }
    assert notices[..|notices|] == notices;
    written := Some(doc);
  }

  /** The two things a run can do. */
  datatype Mode = ScrapeMode | GenerateMarkdownMode

  /** The `-markdown` flag selects the plain digest; without it the run scrapes. */
  function ModeFor(markdownFlag: bool): (m: Mode)
    ensures m == GenerateMarkdownMode <==> markdownFlag
  {
    if markdownFlag then GenerateMarkdownMode else ScrapeMode
  }
}
