/** The Hacker News adapter: the comments under the current "Who is hiring" post become
    notices. The HTTP fetches are inputs: `parent` is the decoded parent item (None when
    it could not be decoded), `fetch` is what `getStory` yields for an id (None when the
    GET, the read or the decode failed), and `arrival` is the order the stories come off
    the channel. `html.UnescapeString` is the parameter `unescape`, `uuid.New` is `uuid`. */
module HackerNews {
  import opened Models
  import opened Fanout

  const HnSourceName := "HackerNews"
  /** The id of the "Who is hiring" post whose comments are read. */
  const CurrentId := 41709301
  /** How many of the newest comments are fetched by default. */
  const DefaultToGet := 20
  /** Without a `<`, the title is the first this-many bytes of the comment. */
  const TitleCut := 20
  const ItemUrlPrefix := "https://news.ycombinator.com/item?id="
  const UserUrlPrefix := "https://news.ycombinator.com/user?id="

  datatype Story = Story(time: int, text: string, id: int, author: string, raw: string)  // `author` is the item's `by` field

  // ---------------------------------------------------------------------------
  // Title extraction

  /** `strings.Index` for a one-character needle: the first position of `c`, or -1. */
  function IndexOf(s: string, c: char): (r: int)
    ensures -1 <= r < |s|
    ensures r == -1 <==> c !in s
    ensures r >= 0 ==> s[r] == c && c !in s[..r]
  {
    if s == [] then -1
    else if s[0] == c then 0
    else
      var k := IndexOf(s[1..], c);
      assert s[1..][..if k < 0 then 0 else k] == s[1..if k < 0 then 1 else k + 1];
      if k == -1 then -1 else k + 1
  }

  /** Where `extractTitle` splits a comment into its title and body parts, before any cleaning. */
  function SplitTitle(text: string): (parts: (string, string))
    ensures '<' in text ==> '<' !in parts.0 && parts.0 + parts.1 == text && |parts.1| > 0 && parts.1[0] == '<'
    ensures '<' !in text && |text| > TitleCut ==> |parts.0| == TitleCut && parts.0 + parts.1 == text
    ensures '<' !in text && |text| <= TitleCut ==> parts.0 == text && parts.1 == text
  {
    var idx := IndexOf(text, '<');
    if idx != -1 then
      assert text == text[..idx] + text[idx..];
      (text[..idx], text[idx..])
    else if |text| > TitleCut then
      assert text == text[..TitleCut] + text[TitleCut..];
      (text[..TitleCut], text[TitleCut..])
    else (text, text)
  }

  predicate IsOpener(c: char) { c == '(' || c == '[' || c == '{' }
  predicate IsCloser(c: char) { c == ')' || c == ']' || c == '}' }
  predicate IsBracket(c: char) { IsOpener(c) || IsCloser(c) }

  /** The title with every bracket character removed and every other character kept in order. */
  function StripBrackets(s: string): (r: string)
    ensures |r| <= |s|
    ensures forall i :: 0 <= i < |r| ==> !IsBracket(r[i])
  {
    if s == [] then [] else StripBrackets(s[..|s| - 1]) + (if IsBracket(s[|s| - 1]) then [] else [s[|s| - 1]])
  }

  /** Every non-bracket character occurs as often in the stripped title as in the title,
      and a title without brackets comes through unchanged. */
  lemma {:induction false} StripBracketsKeepsOthers(s: string)
    ensures forall c :: !IsBracket(c) ==> multiset(StripBrackets(s))[c] == multiset(s)[c]
    ensures (forall i :: 0 <= i < |s| ==> !IsBracket(s[i])) ==> StripBrackets(s) == s
  {
    if s != [] {
      var init, last := s[..|s| - 1], s[|s| - 1];
      assert s == init + [last];
      StripBracketsKeepsOthers(init);
    }
  }

  /** The characters of a title are filtered one at a time: stripping a concatenation
      strips each part and keeps them in order. */
  lemma {:induction false} StripBracketsAppend(a: string, b: string)
    ensures StripBrackets(a + b) == StripBrackets(a) + StripBrackets(b)
  {
    if b != [] {
      var b', x := b[..|b| - 1], b[|b| - 1];
      assert (a + b)[..|a + b| - 1] == a + b';
      assert (a + b)[|a + b| - 1] == x;
      StripBracketsAppend(a, b');
      var kept := if IsBracket(x) then [] else [x];
      AppendAssociative(StripBrackets(a), StripBrackets(b'), kept);
    } else {
      assert a + b == a;
    }
  }

  /** One character is dropped when it is a bracket and kept otherwise. */
  lemma StripBracketsOfChar(c: char)
    ensures StripBrackets([c]) == if IsBracket(c) then [] else [c]
  {
    assert [c][..0] == [];
  }

  /** The cleaned title and the body `extractTitle` returns. */
  function TitleAndBody(text: string, unescape: string -> string): (string, string)
  {
    var parts := SplitTitle(text);
    (unescape(StripBrackets(parts.0)), unescape(parts.1))
  }

  /** `extractTitle`: split at the first `<` (or at byte 20), drop the brackets from the
      title with the source's stack loop, then unescape both parts. The stack only decides
      which closers pop; it never affects what is kept. */
  method ExtractTitle(text: string, unescape: string -> string) returns (title: string, body: string)
    ensures (title, body) == TitleAndBody(text, unescape)
    ensures '<' in text ==> body == unescape(text[IndexOf(text, '<')..])
    ensures '<' !in text && |text| <= TitleCut ==> body == unescape(text)
  {
    title := "";
    body := text;
    var idx := IndexOf(text, '<');
    if idx != -1 {
      title := text[..idx];
      body := text[idx..];
    } else {
      title := text;
      if |text| > TitleCut {
        title := text[..TitleCut];
        body := text[TitleCut..];
      }
    }
    assert (title, body) == SplitTitle(text);

    var stack: seq<char> := [];
    var newTitle: seq<char> := [];
    for i := 0 to |title|
      invariant newTitle == StripBrackets(title[..i])
    {
      var c := title[i];
      assert title[..i + 1][..i] == title[..i];
      if IsOpener(c) {
        stack := stack + [c];
      } else if IsCloser(c) {
        if |stack| > 0 {
          stack := stack[..|stack| - 1];
        }
      } else {
        newTitle := newTitle + [c];
      }
    }
    assert title[..|title|] == title;
    title := unescape(newTitle);
    body := unescape(body);
  }

  // ---------------------------------------------------------------------------
  // Decimal ids (`fmt.Sprint` / `%d` of a Go int)

  function DigitChar(d: nat): char
    requires d < 10
  {
    ('0' as int + d) as char
  }

  predicate IsDigit(c: char) { '0' <= c <= '9' }

  function DigitValue(c: char): nat
  {
    if IsDigit(c) then c as int - '0' as int else 0
  }

  /** Decimal digits with no leading zero, except the single digit "0". */
  predicate CanonicalDigits(s: string)
  {
    |s| > 0 && (forall i :: 0 <= i < |s| ==> IsDigit(s[i])) && (s[0] == '0' ==> s == "0")
  }

  function NatDigits(n: nat): (r: string)
    ensures CanonicalDigits(r)
    ensures r[0] == '0' <==> n == 0
  {
    if n < 10 then [DigitChar(n)] else NatDigits(n / 10) + [DigitChar(n % 10)]
  }

  /** Decimal text of an integer (`fmt.Sprint` of an int): a '-' when negative, then the
      digits of the magnitude with no leading zero. */
  function DecimalString(n: int): (r: string)
    ensures n >= 0 ==> CanonicalDigits(r)
    ensures n < 0 ==> |r| > 1 && r[0] == '-' && CanonicalDigits(r[1..]) && r[1..] != "0"
  {
    if n < 0 then
      var digits := NatDigits(-n);
      assert ("-" + digits)[1..] == digits;
      "-" + digits
    else NatDigits(n)
  }

  function ParseNat(s: string): nat
  {
    if s == [] then 0 else ParseNat(s[..|s| - 1]) * 10 + DigitValue(s[|s| - 1])
  }

  function ParseDecimal(s: string): int
  {
    if |s| > 0 && s[0] == '-' then 0 - ParseNat(s[1..]) else ParseNat(s)
  }

  lemma {:induction false} NatDigitsRoundTrip(n: nat)
    ensures ParseNat(NatDigits(n)) == n
  {
    if n >= 10 {
      NatDigitsRoundTrip(n / 10);
      var s := NatDigits(n);
      assert s[..|s| - 1] == NatDigits(n / 10);
    }
  }

  /** A canonical digit string other than "0" has a positive value. */
  lemma {:induction false} CanonicalPositive(s: string)
    requires CanonicalDigits(s) && s[0] != '0'
    ensures ParseNat(s) >= 1
  {
    if |s| > 1 {
      var init := s[..|s| - 1];
      assert init[0] == s[0];
      CanonicalPositive(init);
    }
  }

  /** Every canonical digit string is the decimal text of its value: no other spelling of
      a number is canonical. */
  lemma {:induction false} CanonicalIsNatDigits(s: string)
    requires CanonicalDigits(s)
    ensures NatDigits(ParseNat(s)) == s
  {
    var init, last := s[..|s| - 1], s[|s| - 1];
    var p, d := ParseNat(init), DigitValue(last);
    assert ParseNat(s) == p * 10 + d;
    assert d < 10 && DigitChar(d) == last;
    if |s| == 1 {
      assert p == 0 && [last] == s;
    } else {
      CanonicalInit(s);
      CanonicalPositive(init);
      CanonicalIsNatDigits(init);
      NatDigitsAppend(p, d);
      assert init + [last] == s;
    }
  }

  /** Dropping the last digit of a canonical string of two or more digits leaves a
      canonical string with the same nonzero first digit. */
  lemma CanonicalInit(s: string)
    requires CanonicalDigits(s) && |s| > 1
    ensures CanonicalDigits(s[..|s| - 1]) && s[..|s| - 1][0] != '0'
  {
    assert s[..|s| - 1][0] == s[0];
  }

  /** Appending a digit to a positive number appends its character to the text. */
  lemma NatDigitsAppend(p: nat, d: nat)
    requires p >= 1 && d < 10
    ensures NatDigits(p * 10 + d) == NatDigits(p) + [DigitChar(d)]
  {
    var v := p * 10 + d;
    assert v / 10 == p && v % 10 == d;
  }

  /** The decimal text of an id reads back as the same id. */
  lemma DecimalRoundTrip(n: int)
    ensures ParseDecimal(DecimalString(n)) == n
  {
    if n < 0 {
      NatDigitsRoundTrip(-n);
      assert DecimalString(n)[1..] == NatDigits(-n);
    } else {
      NatDigitsRoundTrip(n);
    }
  }

  // ---------------------------------------------------------------------------
  // Story to notice

  /** `StoryToNotice`, with the generated id passed in. */
  function StoryToNotice(story: Story, id: string, unescape: string -> string): (n: Notice)
    ensures n.sourceId == HnSourceName && n.imageUrl == None && n.raw == story.raw
    ensures n.guid == DecimalString(story.id) && ParseDecimal(n.guid) == story.id
    ensures n.url == ItemUrlPrefix + n.guid
    ensures n.authorName == story.author && n.authorUrl == UserUrlPrefix + story.author
    ensures n.publishedDate == Some(story.time) && n.id == id
    ensures (n.title, n.body) == TitleAndBody(story.text, unescape)
  {
    DecimalRoundTrip(story.id);
    var tb := TitleAndBody(story.text, unescape);
    Notice(
      id := id,
      title := tb.0,
      body := tb.1,
      url := ItemUrlPrefix + DecimalString(story.id),
      authorName := story.author,
      authorUrl := UserUrlPrefix + story.author,
      imageUrl := None,
      sourceId := HnSourceName,
      raw := story.raw,
      guid := DecimalString(story.id),
      publishedDate := Some(story.time))
  }

  /** Two stories with different ids never share a store key. */
  lemma StoryKeysDistinct(s1: Story, s2: Story, id1: string, id2: string, unescape: string -> string)
    requires s1.id != s2.id
    ensures Key(StoryToNotice(s1, id1, unescape)) != Key(StoryToNotice(s2, id2, unescape))
  {
  }

  /** `FilterOutLessThan10Len`: a notice is kept unless both its title and its body are
      shorter than 10 bytes. */
  function FilterOutLessThan10Len(n: Notice): (keep: bool)
    ensures keep <==> (|n.title| >= 10 || |n.body| >= 10)
  {
    !(|n.title| < 10 && |n.body| < 10)
  }

  // ---------------------------------------------------------------------------
  // Selecting the comments to fetch

  predicate SortedDescending(s: seq<int>)
  {
    forall i, j :: 0 <= i < j < |s| ==> s[i] >= s[j]
  }

  function InsertDescending(x: int, s: seq<int>): (r: seq<int>)
    requires SortedDescending(s)
    ensures SortedDescending(r)
    ensures multiset(r) == multiset(s) + multiset{x}
  {
    if s == [] then [x]
    else if x >= s[0] then
      ConsSorted(x, s);
      [x] + s
    else
      var tail := InsertDescending(x, s[1..]);
      assert s == [s[0]] + s[1..];
      BoundedByHead(x, s, tail);
      ConsSorted(s[0], tail);
      [s[0]] + tail
  }

  /** A head no smaller than every element keeps a descending sequence descending. */
  lemma ConsSorted(h: int, s: seq<int>)
    requires SortedDescending(s)
    requires forall i :: 0 <= i < |s| ==> s[i] <= h
    ensures SortedDescending([h] + s)
  {
  }

  lemma BoundedByHead(x: int, s: seq<int>, tail: seq<int>)
    requires SortedDescending(s) && |s| > 0 && x < s[0]
    requires multiset(tail) == multiset(s[1..]) + multiset{x}
    ensures forall i :: 0 <= i < |tail| ==> tail[i] <= s[0]
  {
    forall i | 0 <= i < |tail|
      ensures tail[i] <= s[0]
    {
      assert tail[i] in multiset(tail);
      if tail[i] != x {
        assert tail[i] in multiset(s[1..]);
        var j :| 0 <= j < |s[1..]| && s[1..][j] == tail[i];
        assert s[j + 1] == tail[i];
      }
    }
  }

  /** The ids in descending order (the `sort.Slice` call), as a permutation of the input. */
  function SortDescending(s: seq<int>): (r: seq<int>)
    ensures SortedDescending(r)
    ensures multiset(r) == multiset(s)
  {
    if s == [] then []
    else
      assert s == [s[0]] + s[1..];
      InsertDescending(s[0], SortDescending(s[1..]))
  }

  lemma SortedPrefixDominates(sorted: seq<int>, n: nat)
    requires SortedDescending(sorted) && n <= |sorted|
    ensures forall x, y :: x in sorted[..n] && y in multiset(sorted[n..]) ==> x >= y
  {
    forall x, y | x in sorted[..n] && y in multiset(sorted[n..])
      ensures x >= y
    {
      var i :| 0 <= i < n && sorted[..n][i] == x;
      assert y in sorted[n..];
      var j :| 0 <= j < |sorted| - n && sorted[n..][j] == y;
      assert sorted[i] == x && sorted[n + j] == y;
    }
  }

  lemma SplitMultiset(sorted: seq<int>, kids: seq<int>, n: nat)
    requires multiset(sorted) == multiset(kids) && n <= |sorted|
    ensures multiset(sorted[..n]) <= multiset(kids)
    ensures multiset(kids) - multiset(sorted[..n]) == multiset(sorted[n..])
  {
    assert sorted == sorted[..n] + sorted[n..];
    assert multiset(sorted) == multiset(sorted[..n]) + multiset(sorted[n..]);
  }

  /** The ids fetched: the `toGet` largest kids (all of them when there are fewer). */
  function ChosenKids(kids: seq<int>, toGet: nat): (chosen: seq<int>)
    ensures |chosen| == Min(toGet, |kids|)
    ensures SortedDescending(chosen)
    ensures multiset(chosen) <= multiset(kids)
    ensures forall x, y :: x in chosen && y in multiset(kids) - multiset(chosen) ==> x >= y
  {
    var sorted := SortDescending(kids);
    var n := Min(toGet, |kids|);
    assert |sorted| == |multiset(kids)| == |kids|;
    SortedPrefixDominates(sorted, n);
    SplitMultiset(sorted, kids, n);
    sorted[..n]
  }

  // ---------------------------------------------------------------------------
  // Fetching and filtering

  /** What one fetched id contributes: an error when the fetch failed, otherwise the mapped
      story when it passes the length filter and nothing when it does not. */
  function StoryOutcome(id: int, fetch: int -> Option<Story>, uuid: int -> string, unescape: string -> string): Outcome<seq<Notice>>
  {
    match fetch(id)
    case None => Err("Unable to get story")
    case Some(story) =>
      var n := StoryToNotice(story, uuid(story.id), unescape);
      Ok(if FilterOutLessThan10Len(n) then [n] else [])
  }

  function StoryOutcomes(ids: seq<int>, fetch: int -> Option<Story>, uuid: int -> string, unescape: string -> string): (r: seq<Outcome<seq<Notice>>>)
    ensures |r| == |ids|
    ensures forall k :: 0 <= k < |ids| ==> r[k] == StoryOutcome(ids[k], fetch, uuid, unescape)
  {
    if ids == [] then []
    else StoryOutcomes(ids[..|ids| - 1], fetch, uuid, unescape) + [StoryOutcome(ids[|ids| - 1], fetch, uuid, unescape)]
  }

  /** Each story contributes at most one notice, so no more notices than ids come back. */
  lemma {:induction false} SuccessesAtMostOneEach(outs: seq<Outcome<seq<Notice>>>)
    requires forall k :: 0 <= k < |outs| ==> |Values(outs[k])| <= 1
    ensures |Successes(outs)| <= |outs|
  {
    if outs != [] {
      SuccessesAtMostOneEach(outs[..|outs| - 1]);
    }
  }

  /** `n` is the mapping of the story fetched for `id`, and it passes the length filter. */
  predicate KeptFrom(id: int, fetch: int -> Option<Story>, uuid: int -> string, unescape: string -> string, n: Notice)
  {
    fetch(id).Some? && FilterOutLessThan10Len(n) &&
    n == StoryToNotice(fetch(id).value, uuid(fetch(id).value.id), unescape)
  }

  lemma KeptFromLast(id: int, fetch: int -> Option<Story>, uuid: int -> string, unescape: string -> string, n: Notice)
    ensures n in Values(StoryOutcome(id, fetch, uuid, unescape)) <==> KeptFrom(id, fetch, uuid, unescape, n)
  {
  }

  /** A notice comes back exactly when it is the mapping of a story that was fetched for
      one of the ids and that passes the length filter. */
  lemma KeptNoticesExactly(ids: seq<int>, fetch: int -> Option<Story>, uuid: int -> string, unescape: string -> string, n: Notice)
    ensures n in Successes(StoryOutcomes(ids, fetch, uuid, unescape)) <==>
      exists k :: 0 <= k < |ids| && KeptFrom(ids[k], fetch, uuid, unescape, n)
  {
    var outs := StoryOutcomes(ids, fetch, uuid, unescape);
    InSuccesses(outs, n);
    forall k | 0 <= k < |ids|
      ensures n in Values(outs[k]) <==> KeptFrom(ids[k], fetch, uuid, unescape, n)
    {
      KeptFromLast(ids[k], fetch, uuid, unescape, n);
    }
    if n in Successes(outs) {
      var k :| 0 <= k < |outs| && n in Values(outs[k]);
      assert KeptFrom(ids[k], fetch, uuid, unescape, n);
    }
    if exists k :: 0 <= k < |ids| && KeptFrom(ids[k], fetch, uuid, unescape, n) {
      var k :| 0 <= k < |ids| && KeptFrom(ids[k], fetch, uuid, unescape, n);
      assert n in Values(outs[k]);
    }
  }

  /** One story taken from the channel: converted, and kept only when it passes the
      length filter; a story that was never sent contributes nothing. */
  method ReceiveStory(id: int, fetch: int -> Option<Story>, uuid: int -> string, unescape: string -> string)
    returns (kept: seq<Notice>)
    ensures kept == Values(StoryOutcome(id, fetch, uuid, unescape))
  {
    kept := [];
    var fetched := fetch(id);
    if fetched.Some? {
      var story := fetched.value;
      var s := StoryToNotice(story, uuid(story.id), unescape);
      if FilterOutLessThan10Len(s) {
        kept := [s];
      }
    }
  }

  /** The fan-out over the selected ids and the drain of the story channel: each story
      that arrives is mapped and kept when it passes the filter; failed fetches send nothing. */
  method CollectStories(selected: seq<int>, fetch: int -> Option<Story>, arrival: seq<nat>,
                        uuid: int -> string, unescape: string -> string)
    returns (notices: seq<Notice>)
    requires IsPermutation(arrival, |selected|)
    ensures multiset(notices) == multiset(Successes(StoryOutcomes(selected, fetch, uuid, unescape)))
    ensures |notices| <= |selected|
  {
    ghost var outs := StoryOutcomes(selected, fetch, uuid, unescape);
    PermutationCovers(arrival, |selected|);
    notices := [];
    for j := 0 to |arrival|
      invariant notices == Gather(outs, arrival[..j])
    {
      var k := arrival[j];
      var kept := ReceiveStory(selected[k], fetch, uuid, unescape);
      GatherStep(outs, arrival, j);
      assert ValuesAt(outs, k) == kept;
      notices := notices + kept;
    }
    assert arrival[..|arrival|] == arrival;
    GatherIsPermutationOfSuccesses(outs, arrival);
    SuccessesAtMostOneEach(outs);
    assert |notices| == |multiset(notices)|;
  }

  /** `ScrapeCurrentWhoIsHiringPosts` after the parent item has been fetched: sort a copy
      of the kids, fetch at most `toGet` of them, and keep the mapped stories that pass the
      filter. A parent that could not be decoded yields no notices. */
  method ScrapeCurrentWhoIsHiringPosts(parent: Option<seq<int>>, toGet: nat, fetch: int -> Option<Story>,
                                       arrival: seq<nat>, uuid: int -> string, unescape: string -> string)
    returns (notices: seq<Notice>)
    requires parent.Some? ==> IsPermutation(arrival, Min(toGet, |parent.value|))
    ensures parent.None? ==> notices == []
    ensures parent.Some? ==>
      multiset(notices) == multiset(Successes(StoryOutcomes(ChosenKids(parent.value, toGet), fetch, uuid, unescape)))
    ensures parent.Some? ==> |notices| <= Min(toGet, |parent.value|)
  {
    if parent.None? {
      return [];
    }
    var kidsCopy := SortDescending(parent.value);
    assert |kidsCopy| == |multiset(kidsCopy)| == |parent.value|;
    var n := toGet;
    if n > |kidsCopy| {
      n := |kidsCopy|;
    }
    var selected := kidsCopy[..n];
    assert selected == ChosenKids(parent.value, toGet);
    notices := CollectStories(selected, fetch, arrival, uuid, unescape);
  }
}
