/** The digest document of markdown.go: every latest notice rendered as a section with its
    title and body cleaned of HTML tags and truncated. `html.UnescapeString` and
    `html.EscapeString` are the parameters `unescape` and `escape`; the date is an input. */
module Markdown {
  import opened Models
  import opened Text

  /** What follows the first '>' of `t`; nothing when `t` has no '>'. */
  function AfterTag(t: string): (r: string)
    ensures |r| <= |t|
    ensures '>' !in t ==> r == []
  {
    if t == [] then []
    else if t[0] == '>' then t[1..]
    else AfterTag(t[1..])
  }

  /** The regular-expression replacement of `<[^>]*>?` by the empty string: scanning left
      to right, each '<' is removed together with everything up to and including the next
      '>', or up to the end of the text when no '>' follows. */
  function StripTags(s: string): (r: string)
    ensures '<' !in r
    ensures |r| <= |s|
    decreases |s|
  {
    if s == [] then []
    else if s[0] == '<' then StripTags(AfterTag(s[1..]))
    else [s[0]] + StripTags(s[1..])
  }

  /** A tag-free prefix is kept as it is. */
  lemma {:induction false} StripTagsKeepsPlainPrefix(a: string, b: string)
    requires '<' !in a
    ensures StripTags(a + b) == a + StripTags(b)
  {
    if a != [] {
      assert (a + b)[0] == a[0];
      assert (a + b)[1..] == a[1..] + b;
      StripTagsKeepsPlainPrefix(a[1..], b);
      assert a == [a[0]] + a[1..];
    } else {
      assert a + b == b;
    }
  }

  /** A text without '<' is unchanged. */
  lemma StripTagsOfPlainText(s: string)
    requires '<' !in s
    ensures StripTags(s) == s
  {
    StripTagsKeepsPlainPrefix(s, []);
    assert s + [] == s;
  }

  lemma {:induction false} AfterClosedTag(t: string, b: string)
    requires '>' !in t
    ensures AfterTag(t + ">" + b) == b
  {
    if t == [] {
      assert t + ">" + b == ">" + b;
    } else {
      assert (t + ">" + b)[0] == t[0];
      assert (t + ">" + b)[1..] == t[1..] + ">" + b;
      AfterClosedTag(t[1..], b);
    }
  }

  /** A complete tag is removed with its delimiters, and nothing else around it changes. */
  lemma StripTagsRemovesTag(a: string, t: string, b: string)
    requires '<' !in a && '>' !in t
    ensures StripTags(a + "<" + t + ">" + b) == a + StripTags(b)
  {
    var tag := "<" + t + ">" + b;
    assert a + "<" + t + ">" + b == a + tag;
    StripTagsKeepsPlainPrefix(a, tag);
    assert tag[1..] == t + ">" + b;
    AfterClosedTag(t, b);
  }

  /** A '<' that is never closed removes the rest of the text. */
  lemma StripTagsRemovesUnclosedTag(a: string, t: string)
    requires '<' !in a && '>' !in t
    ensures StripTags(a + "<" + t) == a
  {
    var tail := "<" + t;
    assert a + "<" + t == a + tail;
    StripTagsKeepsPlainPrefix(a, tail);
    assert tail[1..] == t;
    assert StripTags(tail) == StripTags([]);
    assert a + [] == a;
  }

  /** Stripping twice is stripping once. */
  lemma StripTagsIdempotent(s: string)
    ensures StripTags(StripTags(s)) == StripTags(s)
  {
    StripTagsOfPlainText(StripTags(s));
  }

  /** `printToHTMLAndTruncate`: unescape, strip tags, unescape again, then cut to `length`
      bytes followed by "..." when longer. */
  function PrintToHtmlAndTruncate(text: string, length: nat, unescape: string -> string): (r: string)
    ensures var final := unescape(StripTags(unescape(text)));
      (|final| > length ==> r == final[..length] + "...") && (|final| <= length ==> r == final)
    ensures |r| <= length + 3
  {
    Truncate(unescape(StripTags(unescape(text))), length)
  }

  const TitleLength := 100
  const BodyLength := 500
  const Separator := "---\n\n"

  function FromLine(n: Notice): string
  {
    "**From**: " + n.sourceId + "\n\n"
  }

  function ReadMoreLine(n: Notice, escape: string -> string): string
  {
    "**Read more**: [Here](" + SiteUrl + escape(n.id) + ")\n\n"
  }

  /** The five lines written for one notice. */
  function Section(n: Notice, unescape: string -> string, escape: string -> string): string
  {
    "## " + PrintToHtmlAndTruncate(n.title, TitleLength, unescape) + "\n\n"
    + FromLine(n)
    + PrintToHtmlAndTruncate(n.body, BodyLength, unescape) + "\n\n"
    + ReadMoreLine(n, escape)
    + Separator
  }

  /** One section per notice, in order. */
  function Sections(notices: seq<Notice>, unescape: string -> string, escape: string -> string): (r: seq<string>)
    ensures |r| == |notices|
    ensures forall i :: 0 <= i < |notices| ==> r[i] == Section(notices[i], unescape, escape)
  {
    if notices == [] then []
    else Sections(notices[..|notices| - 1], unescape, escape) + [Section(notices[|notices| - 1], unescape, escape)]
  }

  function Header(date: string): string
  {
    "# Latest Notices\n" + date + "\n\n"
  }

  /** The header followed by the sections, in order. */
  function Document(date: string, sections: seq<string>): (doc: string)
    ensures |doc| >= |Header(date)| && doc[..|Header(date)|] == Header(date)
  {
    Header(date) + Join(sections)
  }

  /** Every section written can be found in the document. */
  lemma DocumentContainsSection(date: string, sections: seq<string>, k: nat)
    requires k < |sections|
    ensures IsInfix(sections[k], Document(date, sections))
  {
    JoinContainsPart(sections, k);
    InfixOfConcat(Join(sections), Header(date), "");
    assert Document(date, sections) == Header(date) + Join(sections) + "";
    InfixTransitive(sections[k], Join(sections), Document(date, sections));
  }

  lemma {:induction false} SectionsAppend(a: seq<Notice>, b: seq<Notice>,
                                         unescape: string -> string, escape: string -> string)
    ensures Sections(a + b, unescape, escape) == Sections(a, unescape, escape) + Sections(b, unescape, escape)
  {
    if b == [] {
      assert a + b == a;
    } else {
      var b', x := b[..|b| - 1], b[|b| - 1];
      var ab := a + b;
      assert ab[..|ab| - 1] == a + b';
      assert ab[|ab| - 1] == x;
      SectionsLast(ab, unescape, escape);
      SectionsLast(b, unescape, escape);
      SectionsAppend(a, b', unescape, escape);
      AppendAssociative(Sections(a, unescape, escape), Sections(b', unescape, escape), [Section(x, unescape, escape)]);
    }
  }

  lemma SectionsLast(notices: seq<Notice>, unescape: string -> string, escape: string -> string)
    requires notices != []
    ensures Sections(notices, unescape, escape)
         == Sections(notices[..|notices| - 1], unescape, escape) + [Section(notices[|notices| - 1], unescape, escape)]
  {
  }

  /** The document for two runs of notices is the first run's document followed by the
      second run's sections: one section per notice, in order. */
  lemma RichDocumentAppend(date: string, a: seq<Notice>, b: seq<Notice>,
                           unescape: string -> string, escape: string -> string)
    ensures Document(date, Sections(a + b, unescape, escape))
         == Document(date, Sections(a, unescape, escape)) + Join(Sections(b, unescape, escape))
  {
    SectionsAppend(a, b, unescape, escape);
    DocumentAppend(date, Sections(a, unescape, escape), Sections(b, unescape, escape));
  }

  lemma DocumentAppend(date: string, s1: seq<string>, s2: seq<string>)
    ensures Document(date, s1 + s2) == Document(date, s1) + Join(s2)
  {
    JoinAppend(s1, s2);
    AppendAssociative(Header(date), Join(s1), Join(s2));
  }

  /** Each notice's origin line, its link to the site and the separator are in the section. */
  lemma SectionLines(n: Notice, unescape: string -> string, escape: string -> string)
    ensures IsInfix(FromLine(n), Section(n, unescape, escape))
    ensures IsInfix(ReadMoreLine(n, escape), Section(n, unescape, escape))
    ensures var s := Section(n, unescape, escape); |s| >= 5 && s[|s| - 5..] == Separator
  {
    var title := "## " + PrintToHtmlAndTruncate(n.title, TitleLength, unescape) + "\n\n";
    var body := PrintToHtmlAndTruncate(n.body, BodyLength, unescape) + "\n\n";
    var s := Section(n, unescape, escape);
    assert s == title + FromLine(n) + (body + ReadMoreLine(n, escape) + Separator);
    InfixOfConcat(FromLine(n), title, body + ReadMoreLine(n, escape) + Separator);
    assert s == (title + FromLine(n) + body) + ReadMoreLine(n, escape) + Separator;
    InfixOfConcat(ReadMoreLine(n, escape), title + FromLine(n) + body, Separator);
  }

  /** Every latest notice's origin and link appear in the digest. */
  lemma RichDocumentMentionsEachNotice(date: string, notices: seq<Notice>, k: nat,
                                       unescape: string -> string, escape: string -> string)
    requires k < |notices|
    ensures IsInfix(FromLine(notices[k]), Document(date, Sections(notices, unescape, escape)))
    ensures IsInfix(ReadMoreLine(notices[k], escape), Document(date, Sections(notices, unescape, escape)))
  {
    var sections := Sections(notices, unescape, escape);
    var doc := Document(date, sections);
    DocumentContainsSection(date, sections, k);
    SectionLines(notices[k], unescape, escape);
    InfixTransitive(FromLine(notices[k]), sections[k], doc);
    InfixTransitive(ReadMoreLine(notices[k], escape), sections[k], doc);
  }

  /** The sections of a prefix of the notices grow by one section per notice. */
  lemma JoinedSectionsStep(notices: seq<Notice>, i: nat, unescape: string -> string, escape: string -> string)
    requires i <= |notices|
    ensures i == 0 ==> Join(Sections(notices[..i], unescape, escape)) == ""
    ensures i > 0 ==>
      Join(Sections(notices[..i], unescape, escape))
        == Join(Sections(notices[..i - 1], unescape, escape)) + Section(notices[i - 1], unescape, escape)
  {
    if i > 0 {
      assert notices[..i][..i - 1] == notices[..i - 1];
    } else {
      assert notices[..i] == [];
    }
  }

  /** The five `WriteString` calls for one notice. */
  method WriteSection(doc: string, notice: Notice, unescape: string -> string, escape: string -> string)
    returns (doc': string)
    ensures doc' == doc + Section(notice, unescape, escape)
  {
    var title := PrintToHtmlAndTruncate(notice.title, TitleLength, unescape);
    var body := PrintToHtmlAndTruncate(notice.body, BodyLength, unescape);
    var l1, l2, l3, l4 := "## " + title + "\n\n", "**From**: " + notice.sourceId + "\n\n",
                          body + "\n\n", "**Read more**: [Here](" + SiteUrl + escape(notice.id) + ")\n\n";
    doc' := doc + l1;
    doc' := doc' + l2;
    doc' := doc' + l3;
    doc' := doc' + l4;
    doc' := doc' + "---\n\n";
    assert Section(notice, unescape, escape) == l1 + l2 + l3 + l4 + Separator;
  }

  /** `GenerateMarkdown`: when the latest notices are read and the file is created, the
      header and then each notice's section are written; otherwise nothing is written. */
  method GenerateMarkdown(latest: Outcome<seq<Notice>>, fileCreated: bool, date: string,
                          unescape: string -> string, escape: string -> string)
    returns (written: Option<string>)
    ensures latest.Err? || !fileCreated ==> written == None
    ensures latest.Ok? && fileCreated ==>
      written == Some(Document(date, Sections(latest.value, unescape, escape)))
  {
    if latest.Err? || !fileCreated {
      return None;
    }
    var notices := latest.value;
    var doc := "# Latest Notices\n";
    doc := doc + date + "\n\n";
    JoinedSectionsStep(notices, 0, unescape, escape);
    for i := 0 to |notices|
      invariant doc == Header(date) + Join(Sections(notices[..i], unescape, escape))
    {
      JoinedSectionsStep(notices, i + 1, unescape, escape);
      ghost var written := Join(Sections(notices[..i], unescape, escape));
      ghost var section := Section(notices[i], unescape, escape);
      doc := WriteSection(doc, notices[i], unescape, escape);
      assert doc == Header(date) + written + section;
      AppendAssociative(Header(date), written, section);
    }
    assert notices[..|notices|] == notices;
    written := Some(doc);
  }
}
