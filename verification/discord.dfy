/** The chat notifications of pkg/discord/discord.go: one embed per new notice. The
    HTML-to-Markdown converter is the parameter `toMarkdown` (its error is ignored by the
    caller, so it is a total function here) and a channel send is the parameter `send`,
    None when the send succeeds. */
module Discord {
  import opened Models
  import opened Text

  const TruncateLength := 500
  const FailedSend := "Failed to send embed: "

  /** The site page of a notice. */
  function ConvertToSiteUrl(id: string): (url: string)
    ensures |url| == |SiteUrl| + |id|
    ensures url[..|SiteUrl|] == SiteUrl && url[|SiteUrl|..] == id
  {
    SiteUrl + id
  }

  /** Distinct notices get distinct pages. */
  lemma SiteUrlInjective(a: string, b: string)
    requires ConvertToSiteUrl(a) == ConvertToSiteUrl(b)
    ensures a == b
  {
    assert a == ConvertToSiteUrl(a)[|SiteUrl|..];
  }

  datatype Embed = Embed(title: string, url: string, description: string)

  function ViewOnSite(id: string): string
  {
    "\n[View on site](" + ConvertToSiteUrl(id) + ")"
  }

  /** The embed built for one notice: its title and URL, and as description the converted
      body cut to 500 bytes followed by "..." when longer, then the link to the site. */
  function EmbedFor(n: Notice, toMarkdown: string -> string): Embed
  {
    Embed(n.title, n.url, Truncate(toMarkdown(n.body), TruncateLength) + ViewOnSite(n.id))
  }

  /** The embed carries the notice's title and URL; its description ends with the link to
      the site, after the converted body kept whole up to 500 bytes or cut to 500 bytes and
      "...", so it is never longer than 503 bytes plus the link. */
  lemma EmbedForContents(n: Notice, toMarkdown: string -> string)
    ensures var e := EmbedFor(n, toMarkdown); var body := toMarkdown(n.body); var link := ViewOnSite(n.id);
      e.title == n.title && e.url == n.url
      && |e.description| >= |link| && e.description[|e.description| - |link|..] == link
      && (|body| <= TruncateLength ==> e.description == body + link)
      && (|body| > TruncateLength ==> e.description == body[..TruncateLength] + "..." + link)
      && |e.description| <= TruncateLength + 3 + |link|
  {
    var body := toMarkdown(n.body);
    var cut := Truncate(body, TruncateLength);
    assert |cut| <= TruncateLength + 3;
    assert EmbedFor(n, toMarkdown).description == cut + ViewOnSite(n.id);
  }

  function Embeds(notices: seq<Notice>, toMarkdown: string -> string): (r: seq<Embed>)
    ensures |r| == |notices|
    ensures forall i :: 0 <= i < |notices| ==> r[i] == EmbedFor(notices[i], toMarkdown)
  {
    if notices == [] then []
    else Embeds(notices[..|notices| - 1], toMarkdown) + [EmbedFor(notices[|notices| - 1], toMarkdown)]
  }

  /** The positions of the embeds whose send fails. */
  function FailedPositions(embeds: seq<Embed>, send: Embed -> Option<string>): set<nat>
  {
    set i: nat | i < |embeds| && send(embeds[i]).Some?
  }

  /** `line` is the log line of a failed send among `embeds`. */
  predicate IsFailureLine(line: string, embeds: seq<Embed>, send: Embed -> Option<string>)
  {
    exists i :: 0 <= i < |embeds| && send(embeds[i]).Some? && line == FailedSend + send(embeds[i]).value
  }

  /** The log lines of the sends that fail, in send order: one line per failed send, each
      made of `FailedSend` and that send's error. */
  function SendFailures(embeds: seq<Embed>, send: Embed -> Option<string>): (r: seq<string>)
    ensures |r| == |FailedPositions(embeds, send)| <= |embeds|
    ensures r == [] <==> forall i :: 0 <= i < |embeds| ==> send(embeds[i]).None?
    ensures forall i :: 0 <= i < |embeds| && send(embeds[i]).Some? ==> FailedSend + send(embeds[i]).value in r
    ensures forall k :: 0 <= k < |r| ==> IsFailureLine(r[k], embeds, send)
  {
    if embeds == [] then []
    else
      var init, e := embeds[..|embeds| - 1], embeds[|embeds| - 1];
      assert forall i :: 0 <= i < |init| ==> init[i] == embeds[i];
      assert init + [e] == embeds;
      var rest := SendFailures(init, send);
      FailureCountExtend(init, e, send, rest);
      FailureLinesCover(init, e, send, rest);
      FailureLinesSound(init, e, send, rest);
      rest + FailureLine(e, send)
  }

  /** One more embed adds its own position to the failed ones exactly when its send fails. */
  lemma FailedPositionsLast(init: seq<Embed>, e: Embed, send: Embed -> Option<string>)
    ensures FailedPositions(init + [e], send)
         == FailedPositions(init, send) + (if send(e).Some? then {|init|} else {})
    ensures |init| !in FailedPositions(init, send)
  {
    var embeds := init + [e];
    assert forall i :: 0 <= i < |init| ==> embeds[i] == init[i];
  }

  /** The log line one send adds: none when it succeeds. */
  function FailureLine(e: Embed, send: Embed -> Option<string>): (r: seq<string>)
    ensures |r| <= 1 && (r == [] <==> send(e).None?)
    ensures send(e).Some? ==> r == [FailedSend + send(e).value]
  {
    if send(e).Some? then [FailedSend + send(e).value] else []
  }

  /** Counting: one more send adds a line exactly when it adds a failed position. */
  lemma FailureCountExtend(init: seq<Embed>, e: Embed, send: Embed -> Option<string>, rest: seq<string>)
    requires |rest| == |FailedPositions(init, send)|
    ensures |rest + FailureLine(e, send)| == |FailedPositions(init + [e], send)|
  {
    FailedPositionsLast(init, e, send);
  }

  /** Every failed send of the longer sequence has its line. */
  lemma FailureLinesCover(init: seq<Embed>, e: Embed, send: Embed -> Option<string>, rest: seq<string>)
    requires forall i :: 0 <= i < |init| && send(init[i]).Some? ==> FailedSend + send(init[i]).value in rest
    ensures forall i :: 0 <= i < |init + [e]| && send((init + [e])[i]).Some? ==>
      FailedSend + send((init + [e])[i]).value in rest + FailureLine(e, send)
  {
    var embeds := init + [e];
    assert forall i :: 0 <= i < |init| ==> embeds[i] == init[i];
  }

  /** Every line of the longer sequence belongs to one of its failed sends. */
  lemma FailureLinesSound(init: seq<Embed>, e: Embed, send: Embed -> Option<string>, rest: seq<string>)
    requires forall k :: 0 <= k < |rest| ==> IsFailureLine(rest[k], init, send)
    ensures var r := rest + FailureLine(e, send);
      forall k :: 0 <= k < |r| ==> IsFailureLine(r[k], init + [e], send)
  {
    var embeds, r := init + [e], rest + FailureLine(e, send);
    forall k | 0 <= k < |r|
      ensures IsFailureLine(r[k], embeds, send)
    {
      if k < |rest| {
        assert IsFailureLine(rest[k], init, send);
        var i :| 0 <= i < |init| && send(init[i]).Some? && rest[k] == FailedSend + send(init[i]).value;
        assert r[k] == rest[k] && embeds[i] == init[i];
      } else {
        assert r[k] == FailureLine(e, send)[0] && embeds[|init|] == e;
      }
    }
  }

  /** The body rewriting of one loop iteration of `SendList`: convert, cut, add the link. */
  method BuildEmbed(notice: Notice, toMarkdown: string -> string) returns (embed: Embed)
    ensures embed == EmbedFor(notice, toMarkdown)
  {
    var body := toMarkdown(notice.body);
    if |body| > TruncateLength {
      body := body[..TruncateLength] + "...";
    }
    assert body == Truncate(toMarkdown(notice.body), TruncateLength);
    body := body + "\n[View on site](" + ConvertToSiteUrl(notice.id) + ")";
    embed := Embed(notice.title, notice.url, body);
  }

  lemma EmbedsStep(notices: seq<Notice>, i: nat, toMarkdown: string -> string)
    requires i < |notices|
    ensures Embeds(notices[..i + 1], toMarkdown) == Embeds(notices[..i], toMarkdown) + [EmbedFor(notices[i], toMarkdown)]
  {
    assert notices[..i + 1][..i] == notices[..i];
  }

  lemma SendFailuresStep(sent: seq<Embed>, e: Embed, send: Embed -> Option<string>)
    ensures SendFailures(sent + [e], send) == SendFailures(sent, send) + FailureLine(e, send)
  {
    assert (sent + [e])[..|sent|] == sent;
  }

  /** `sendEmbed`: one send, and a log line when it fails. */
  method SendEmbed(embed: Embed, send: Embed -> Option<string>) returns (logged: seq<string>)
    ensures logged == FailureLine(embed, send)
  {
    logged := [];
    var err := send(embed);
    if err.Some? {
      logged := [FailedSend + err.value];
    }
  }

  /** `SendList`: every notice is sent, in order, as its embed; a failed send is logged and
      the loop goes on. The caller's notices are values and stay as they were. */
  method SendList(notices: seq<Notice>, toMarkdown: string -> string, send: Embed -> Option<string>)
    returns (sent: seq<Embed>, logged: seq<string>)
    ensures |sent| == |notices|
    ensures forall i :: 0 <= i < |notices| ==> sent[i] == EmbedFor(notices[i], toMarkdown)
    ensures logged == SendFailures(sent, send)
  {
    sent, logged := [], [];
    for i := 0 to |notices|
      invariant sent == Embeds(notices[..i], toMarkdown)
      invariant logged == SendFailures(sent, send)
    {
      EmbedsStep(notices, i, toMarkdown);
      var embed := BuildEmbed(notices[i], toMarkdown);
      var line := SendEmbed(embed, send);
      SendFailuresStep(sent, embed, send);
      sent := sent + [embed];
      logged := logged + line;
    }
    assert notices[..|notices|] == notices;
  }
}
