/**
 * The RSS 2.0 feed generator and its string helpers: `escapeXml`, which
 * escapes the five predefined entities of section 4.6 of XML 1.0, `stripHtml`,
 * `truncateText`, and `generateRSSFeed`. Dates are formatted by a function
 * the caller supplies (`formatRSSDate`), and "now" is a parameter.
 */
module Rss {
  import opened JsString
  import opened JsArray

  // ---------------------------------------------------------------------------
  // escapeXml

  /** `escapeXml`: five global replacements, `&` first. */
  function EscapeXml(unsafe: string): string
  {
    var amp := ReplaceAll(unsafe, "&", "&amp;");
    var lt := ReplaceAll(amp, "<", "&lt;");
    var gt := ReplaceAll(lt, ">", "&gt;");
    var quot := ReplaceAll(gt, "\"", "&quot;");
    ReplaceAll(quot, "'", "&apos;")
  }

  /** The characters `escapeXml` rewrites. */
  predicate Special(c: char)
  {
    c == '&' || c == '<' || c == '>' || c == '"' || c == '\''
  }

  /** The predefined entity of a special character; any other character stands for itself. */
  function EscapeChar(c: char): string
  {
    if c == '&' then "&amp;"
    else if c == '<' then "&lt;"
    else if c == '>' then "&gt;"
    else if c == '"' then "&quot;"
    else if c == '\'' then "&apos;"
    else [c]
  }

  /** The reference definition: every character escaped on its own, left to right. */
  function EscapedChars(s: string): string
  {
    if s == [] then [] else EscapeChar(s[0]) + EscapedChars(s[1..])
  }

  /** A string that begins with one of the five entities. */
  predicate StartsEntity(t: string)
  {
    "&amp;" <= t || "&lt;" <= t || "&gt;" <= t || "&quot;" <= t || "&apos;" <= t
  }

  /** One step of a one-character replacement. */
  lemma ReplaceCharStep(s: string, c: char, rep: string)
    requires s != []
    ensures ReplaceAll(s, [c], rep) == (if s[0] == c then rep else [s[0]]) + ReplaceAll(s[1..], [c], rep)
  {
    assert [c] <= s <==> s[0] == c;
    assert s[|[c]|..] == s[1..];
  }

  lemma {:induction false} ReplaceCharAppend(a: string, b: string, c: char, rep: string)
    ensures ReplaceAll(a + b, [c], rep) == ReplaceAll(a, [c], rep) + ReplaceAll(b, [c], rep)
  {
    if a == [] {
      assert a + b == b;
    } else {
      ReplaceCharStep(a + b, c, rep);
      ReplaceCharStep(a, c, rep);
      assert (a + b)[0] == a[0];
      assert (a + b)[1..] == a[1..] + b;
      ReplaceCharAppend(a[1..], b, c, rep);
    }
  }

  lemma ReplaceCharSingle(x: char, c: char, rep: string)
    ensures ReplaceAll([x], [c], rep) == if x == c then rep else [x]
  {
    ReplaceCharStep([x], c, rep);
    assert [x][1..] == [];
  }

  lemma {:induction false} ReplaceCharAbsent(s: string, c: char, rep: string)
    requires c !in s
    ensures ReplaceAll(s, [c], rep) == s
  {
    if s != [] {
      ReplaceCharStep(s, c, rep);
      assert s[0] in s;
      assert forall x :: x in s[1..] ==> x in s;
      ReplaceCharAbsent(s[1..], c, rep);
    }
  }

  lemma EscapeAppend(a: string, b: string)
    ensures EscapeXml(a + b) == EscapeXml(a) + EscapeXml(b)
  {
    ReplaceCharAppend(a, b, '&', "&amp;");
    var a1, b1 := ReplaceAll(a, "&", "&amp;"), ReplaceAll(b, "&", "&amp;");
    ReplaceCharAppend(a1, b1, '<', "&lt;");
    var a2, b2 := ReplaceAll(a1, "<", "&lt;"), ReplaceAll(b1, "<", "&lt;");
    ReplaceCharAppend(a2, b2, '>', "&gt;");
    var a3, b3 := ReplaceAll(a2, ">", "&gt;"), ReplaceAll(b2, ">", "&gt;");
    ReplaceCharAppend(a3, b3, '"', "&quot;");
    var a4, b4 := ReplaceAll(a3, "\"", "&quot;"), ReplaceAll(b3, "\"", "&quot;");
    ReplaceCharAppend(a4, b4, '\'', "&apos;");
  }

  /** The chain turns one character into its entity: a later step never rewrites an earlier step's output. */
  lemma EscapeOne(x: char)
    ensures EscapeXml([x]) == EscapeChar(x)
  {
    ReplaceCharSingle(x, '&', "&amp;");
    var s1 := ReplaceAll([x], "&", "&amp;");
    if x == '&' {
      ReplaceCharAbsent(s1, '<', "&lt;");
    } else {
      ReplaceCharSingle(x, '<', "&lt;");
    }
    var s2 := ReplaceAll(s1, "<", "&lt;");
    if x == '&' || x == '<' {
      ReplaceCharAbsent(s2, '>', "&gt;");
    } else {
      ReplaceCharSingle(x, '>', "&gt;");
    }
    var s3 := ReplaceAll(s2, ">", "&gt;");
    if x == '&' || x == '<' || x == '>' {
      ReplaceCharAbsent(s3, '"', "&quot;");
    } else {
      ReplaceCharSingle(x, '"', "&quot;");
    }
    var s4 := ReplaceAll(s3, "\"", "&quot;");
    if x == '&' || x == '<' || x == '>' || x == '"' {
      ReplaceCharAbsent(s4, '\'', "&apos;");
    } else {
      ReplaceCharSingle(x, '\'', "&apos;");
    }
  }

  /** The replacement chain escapes every character on its own: no replacement rewrites another's output. */
  lemma {:induction false} EscapeXmlSpec(s: string)
    ensures EscapeXml(s) == EscapedChars(s)
  {
    if s == [] {
    } else {
      assert s == [s[0]] + s[1..];
      EscapeAppend([s[0]], s[1..]);
      EscapeOne(s[0]);
      EscapeXmlSpec(s[1..]);
    }
  }

  /** Text fit for XML character data and attribute values: no `< > " '`, and each `&` begins an entity. */
  predicate Escaped(r: string)
  {
    && (forall i :: 0 <= i < |r| ==> r[i] != '<' && r[i] != '>' && r[i] != '"' && r[i] != '\'')
    && (forall i :: 0 <= i < |r| && r[i] == '&' ==> StartsEntity(r[i..]))
  }

  /** Whatever the input, `escapeXml` produces escaped text. */
  lemma EscapedSafe(s: string)
    ensures Escaped(EscapeXml(s))
  {
    EscapeXmlSpec(s);
    EscapedCharsSafe(s);
  }

  /** The entity of one character holds no `< > " '`, and only its first character may be `&`. */
  lemma EscapeCharAt(c: char, i: int)
    requires 0 <= i < |EscapeChar(c)|
    ensures var e := EscapeChar(c);
      && e[i] != '<' && e[i] != '>' && e[i] != '"' && e[i] != '\''
      && (e[i] == '&' ==> i == 0 && StartsEntity(e))
  {
  }

  lemma {:induction false} EscapedCharsSafe(s: string)
    ensures Escaped(EscapedChars(s))
  {
    if s != [] {
      var e := EscapeChar(s[0]);
      var rest := EscapedChars(s[1..]);
      var r := e + rest;
      assert EscapedChars(s) == r;
      EscapedCharsSafe(s[1..]);
      forall i | 0 <= i < |r| ensures r[i] != '<' && r[i] != '>' && r[i] != '"' && r[i] != '\'' {
        if i < |e| {
          EscapeCharAt(s[0], i);
          assert r[i] == e[i];
        } else {
          assert r[i] == rest[i - |e|];
        }
      }
      forall i | 0 <= i < |r| && r[i] == '&' ensures StartsEntity(r[i..]) {
        if i < |e| {
          EscapeCharAt(s[0], i);
          assert r[i] == e[i];
          assert StartsEntity(e) && i == 0;
          assert r[i..] == e + rest;
        } else {
          assert r[i] == rest[i - |e|];
          assert r[i..] == rest[i - |e|..];
        }
      }
    }
  }

  /** Escaping never shortens, and keeps the length exactly when nothing is special. */
  lemma {:induction false} EscapedLength(s: string)
    ensures |EscapedChars(s)| >= |s|
    ensures |EscapedChars(s)| == |s| <==> forall i :: 0 <= i < |s| ==> !Special(s[i])
    ensures (forall i :: 0 <= i < |s| ==> !Special(s[i])) ==> EscapedChars(s) == s
  {
    if s != [] {
      EscapedLength(s[1..]);
      assert forall i :: 1 <= i < |s| ==> s[i] == s[1..][i - 1];
    }
  }

  /** `escapeXml` leaves its input unchanged exactly when it holds none of `& < > " '`. */
  lemma EscapeXmlIdentity(s: string)
    ensures EscapeXml(s) == s <==> forall i :: 0 <= i < |s| ==> !Special(s[i])
  {
    EscapeXmlSpec(s);
    EscapedLength(s);
  }

  // ---------------------------------------------------------------------------
  // stripHtml

  /**
   * `replace(/<[^>]*>/g, '')`: from each `<` that has a `>` somewhere after
   * it, drop everything up to and including the first such `>`; a `<` with no
   * `>` after it is kept.
   */
  function StripTags(s: string): (r: string)
    ensures |r| <= |s|
    decreases |s|
  {
    if s == [] then []
    else if s[0] == '<' && IndexOf(s, '>') >= 0 then StripTags(s[IndexOf(s, '>') + 1..])
    else [s[0]] + StripTags(s[1..])
  }

  /** Text without `<` has no tags to strip. */
  lemma {:induction false} StripTagsNoTags(s: string)
    requires '<' !in s
    ensures StripTags(s) == s
    decreases |s|
  {
    if s != [] {
      StripTagsNoTags(s[1..]);
    }
  }

  /** The entity replacements of `stripHtml`, in source order. */
  function DecodePat(k: int): (p: string)
    requires 1 <= k <= 6
    ensures |p| > 0
  {
    if k == 1 then "&nbsp;"
    else if k == 2 then "&amp;"
    else if k == 3 then "&lt;"
    else if k == 4 then "&gt;"
    else if k == 5 then "&quot;"
    else "&apos;"
  }

  function DecodeRep(k: int): string
    requires 1 <= k <= 6
  {
    if k == 1 then " "
    else if k == 2 then "&"
    else if k == 3 then "<"
    else if k == 4 then ">"
    else if k == 5 then "\""
    else "'"
  }

  /** The first `n` entity replacements applied in order. */
  function DecodeSteps(s: string, n: int): string
    requires 0 <= n <= 6
  {
    if n == 0 then s else ReplaceAll(DecodeSteps(s, n - 1), DecodePat(n), DecodeRep(n))
  }

  /** `stripHtml`: drop tags, decode six entities, then `trim`. */
  function StripHtml(html: string): string
  {
    Trim(DecodeSteps(StripTags(html), 6))
  }

  /** `stripHtml` output neither begins nor ends with white space. */
  lemma StripHtmlTrimmed(html: string)
    ensures var r := StripHtml(html); r == [] || (!IsSpace(r[0]) && !IsSpace(r[|r| - 1]))
  {
    TrimShape(DecodeSteps(StripTags(html), 6));
  }

  /** An entity: `&`, then characters other than `&` and `;`, then `;`. */
  predicate Entity(e: string)
  {
    && |e| >= 2 && e[0] == '&' && e[|e| - 1] == ';'
    && (forall i :: 0 < i < |e| ==> e[i] != '&')
    && (forall i :: 0 <= i < |e| - 1 ==> e[i] != ';')
  }

  /** One entity is a prefix of another followed by anything only when they are equal. */
  lemma EntityPrefix(e: string, p: string, rest: string)
    requires Entity(e) && Entity(p) && p <= e + rest
    ensures p == e
  {
    assert (e + rest)[|p| - 1] == ';';
    assert |e| <= |p| ==> p[|e| - 1] == (e + rest)[|e| - 1] == ';';
    assert p == (e + rest)[..|p|] == e;
  }

  /** Replacing one entity by text works entity by entity over a leading entity. */
  lemma ReplaceOverEntity(e: string, rest: string, p: string, rep: string)
    requires Entity(e) && Entity(p)
    ensures ReplaceAll(e + rest, p, rep) == (if e == p then rep else e) + ReplaceAll(rest, p, rep)
  {
    if e == p {
      assert (e + rest)[|p|..] == rest;
    } else {
      if p <= e + rest {
        EntityPrefix(e, p, rest);
      }
      assert (e + rest)[0] == '&';
      assert (e + rest)[1..] == e[1..] + rest;
      ReplaceSkip(e[1..], rest, p, rep);
    }
  }

  /**
   * How a character of the original text looks in escaped text after `k`
   * decoding steps: its entity until the step that decodes it, then itself.
   */
  function Stage(c: char, k: int): string
  {
    if c == '<' && k < 3 then "&lt;"
    else if c == '>' && k < 4 then "&gt;"
    else if c == '"' && k < 5 then "&quot;"
    else if c == '\'' && k < 6 then "&apos;"
    else [c]
  }

  function StageText(s: string, k: int): string
  {
    if s == [] then [] else Stage(s[0], k) + StageText(s[1..], k)
  }

  lemma StageStep(c: char, k: int)
    requires c != '&' && 0 <= k < 6
    ensures || (|Stage(c, k)| == 1 && Stage(c, k)[0] != '&' && Stage(c, k + 1) == Stage(c, k))
            || (Entity(Stage(c, k)) && Entity(DecodePat(k + 1)) &&
                Stage(c, k + 1) == if Stage(c, k) == DecodePat(k + 1) then DecodeRep(k + 1) else Stage(c, k))
  {
    var p := DecodePat(k + 1);
    assert Entity(p);
    if c == '<' || c == '>' || c == '"' || c == '\'' {
      assert Entity(Stage(c, k)) || |Stage(c, k)| == 1;
    }
  }

  /** Each decoding step turns stage `k` into stage `k + 1`, character by character. */
  lemma {:induction false} DecodeStep(s: string, k: int)
    requires '&' !in s && 0 <= k < 6
    ensures ReplaceAll(StageText(s, k), DecodePat(k + 1), DecodeRep(k + 1)) == StageText(s, k + 1)
  {
    if s != [] {
      var e := Stage(s[0], k);
      var rest := StageText(s[1..], k);
      var p, rep := DecodePat(k + 1), DecodeRep(k + 1);
      assert s[0] in s;
      StageStep(s[0], k);
      DecodeStep(s[1..], k);
      if |e| == 1 && e[0] != '&' {
        assert p[0] == '&';
        ReplaceSkip(e, rest, p, rep);
      } else {
        ReplaceOverEntity(e, rest, p, rep);
      }
    }
  }

  lemma {:induction false} DecodeStages(s: string, n: int)
    requires '&' !in s && 0 <= n <= 6
    ensures DecodeSteps(StageText(s, 0), n) == StageText(s, n)
  {
    if n > 0 {
      DecodeStages(s, n - 1);
      DecodeStep(s, n - 1);
    }
  }

  lemma {:induction false} StageEnds(s: string)
    requires '&' !in s
    ensures StageText(s, 0) == EscapedChars(s)
    ensures StageText(s, 6) == s
  {
    if s != [] {
      assert s[1..] <= s[1..] && forall c :: c in s[1..] ==> c in s;
      StageEnds(s[1..]);
      assert s == [s[0]] + s[1..];
    }
  }

  /**
   * Round trip: stripping the escaped form of a text without `&` gives back
   * the text, trimmed. (With `&` it need not: `&lt;` escapes to `&amp;lt;`,
   * which decodes `&amp;` first and then `&lt;`, ending as `<`.)
   */
  lemma StripEscapeRoundTrip(s: string)
    requires '&' !in s
    ensures StripHtml(EscapeXml(s)) == Trim(s)
  {
    EscapeXmlSpec(s);
    EscapedSafe(s);
    var r := EscapeXml(s);
    assert '<' !in r by {
      forall i | 0 <= i < |r| ensures r[i] != '<' {
      }
    }
    StripTagsNoTags(r);
    StageEnds(s);
    DecodeStages(s, 6);
  }

  // ---------------------------------------------------------------------------
  // truncateText

  /**
   * `truncateText`: a text no longer than the limit is kept; otherwise it is
   * cut at the last space within the first `maxLength` characters and `...`
   * is appended (with no such space, the cut keeps nothing).
   */
  function TruncateText(text: string, maxLength: int): string
  {
    if |text| <= maxLength then text
    else
      var truncated := Substring(text, 0, maxLength);
      var lastSpace := LastIndexOf(truncated, ' ');
      Substring(truncated, 0, lastSpace) + "..."
  }

  lemma TruncateTextSpec(text: string, maxLength: int)
    ensures |text| <= maxLength ==> TruncateText(text, maxLength) == text
    ensures |text| > maxLength ==>
      var m := if maxLength < 0 then 0 else maxLength;
      || (exists p :: 0 <= p < m && text[p] == ' ' && (forall i :: p < i < m ==> text[i] != ' ') &&
                      TruncateText(text, maxLength) == text[..p] + "...")
      || ((forall i :: 0 <= i < m ==> text[i] != ' ') && TruncateText(text, maxLength) == "...")
  {
    if |text| > maxLength {
      var m := if maxLength < 0 then 0 else maxLength;
      var truncated := Substring(text, 0, maxLength);
      assert truncated == text[..m];
      var p := LastIndexOf(truncated, ' ');
      if p >= 0 {
        assert text[p] == ' ' && forall i :: p < i < m ==> text[i] == truncated[i];
        assert Substring(truncated, 0, p) == text[..p];
      } else {
        assert forall i :: 0 <= i < m ==> text[i] == truncated[i];
      }
    }
  }

  // ---------------------------------------------------------------------------
  // generateRSSFeed

  /**
   * An `RSSFeedItem`. Optional strings are `""` when absent: an absent field
   * and an empty one are both falsy and render the same way. `D` is the date
   * type handed to `formatRSSDate`; a missing category list is empty. `pubDate`
   * is `None` for every falsy date, the empty date string included.
   */
  datatype FeedItem<D> = FeedItem(title: string, link: string, description: string, content: string,
                                  pubDate: Option<D>, guid: string, author: string, category: seq<string>)

  /** `RSSFeedOptions`: `language` defaults to `en-us` and `lastBuildDate` to the current time. */
  datatype FeedOptions<D> = FeedOptions(title: string, description: string, link: string,
                                        items: seq<FeedItem<D>>, language: Option<string>,
                                        lastBuildDate: Option<D>)

  const Indent: string := "        "

  /** One `<tag>text</tag>` line of an item. */
  function Element(tag: string, text: string): string
  {
    Indent + "<" + tag + ">" + text + "</" + tag + ">"
  }

  /** The CDATA line carrying the item's HTML content unescaped. */
  function ContentLine(html: string): string
  {
    Indent + "<content:encoded><![CDATA[" + html + "]]></content:encoded>"
  }

  /** The opening tag of a guid line that is a permalink. */
  const PermalinkOpen: string := Indent + "<guid isPermaLink=\"true\">"

  function GuidLine(guid: string, isPermalink: bool): string
  {
    (if isPermalink then PermalinkOpen else Indent + "<guid>") + EscapeXml(guid) + "</guid>"
  }

  /** The plain text shown as the description: tags stripped, cut to 500 characters. */
  function PlainDescription(html: string): string
  {
    TruncateText(StripHtml(html), 500)
  }

  function LinkLines<D>(item: FeedItem<D>): seq<string>
  {
    if item.link != "" then [Element("link", EscapeXml(item.link))] else []
  }

  function DescriptionLines<D>(item: FeedItem<D>): seq<string>
  {
    if item.description != "" then [Element("description", EscapeXml(PlainDescription(item.description)))] else []
  }

  function ContentLines<D>(item: FeedItem<D>): seq<string>
  {
    if item.content != "" then [ContentLine(item.content)] else []
  }

  function PubDateLines<D>(item: FeedItem<D>, formatDate: D -> string): seq<string>
  {
    if item.pubDate.Some? then [Element("pubDate", formatDate(item.pubDate.value))] else []
  }

  /** The `<guid>` line: an explicit guid, or else the link as a permalink, or nothing. */
  function GuidLines<D>(item: FeedItem<D>): seq<string>
  {
    if item.guid != "" then [GuidLine(item.guid, item.link == item.guid)]
    else if item.link != "" then [GuidLine(item.link, true)]
    else []
  }

  function AuthorLines<D>(item: FeedItem<D>): seq<string>
  {
    if item.author != "" then [Element("author", EscapeXml(item.author))] else []
  }

  function CategoryLines(cats: seq<string>): (r: seq<string>)
    ensures |r| == |cats|
  {
    if cats == [] then [] else CategoryLines(cats[..|cats| - 1]) + [Element("category", EscapeXml(cats[|cats| - 1]))]
  }

  /** The lines of one `<item>` in source order, each present only when its field is. */
  function ItemLines<D>(item: FeedItem<D>, formatDate: D -> string): seq<string>
  {
    [Element("title", EscapeXml(item.title))] + LinkLines(item) + DescriptionLines(item) + ContentLines(item)
    + PubDateLines(item, formatDate) + GuidLines(item) + AuthorLines(item) + CategoryLines(item.category)
  }

  /** An `<item>` block around its lines. */
  function ItemBlock(lines: seq<string>): string
  {
    "    <item>\n" + Join(lines, "\n") + "\n    </item>"
  }

  /** What the `items.map` callback returns for one item. */
  function ItemXml<D>(item: FeedItem<D>, formatDate: D -> string): string
  {
    ItemBlock(ItemLines(item, formatDate))
  }

  /** The `<item>` blocks, one per item, in input order. */
  function ItemBlocks<D>(items: seq<FeedItem<D>>, formatDate: D -> string): seq<string>
  {
    Map(items, item => ItemXml(item, formatDate))
  }

  /** The document template around the channel fields and the joined item blocks. */
  function Channel(title: string, description: string, link: string, language: string,
                   lastBuildDate: string, itemsXml: string): string
  {
    "<?xml version=\"1.0\" encoding=\"UTF-8\"?>\n"
    + "<rss version=\"2.0\" xmlns:content=\"http://purl.org/rss/1.0/modules/content/\" xmlns:atom=\"http://www.w3.org/2005/Atom\">\n"
    + "  <channel>\n"
    + "    <title>" + EscapeXml(title) + "</title>\n"
    + "    <description>" + EscapeXml(description) + "</description>\n"
    + "    <link>" + EscapeXml(link) + "</link>\n"
    + "    <atom:link href=\"" + EscapeXml(link) + "\" rel=\"self\" type=\"application/rss+xml\" />\n"
    + "    <language>" + language + "</language>\n"
    + "    <lastBuildDate>" + lastBuildDate + "</lastBuildDate>\n"
    + itemsXml
    + "\n  </channel>\n</rss>"
  }

  /** The feed `generateRSSFeed` returns, with `language` and `lastBuildDate` defaulted. */
  function Feed<D>(options: FeedOptions<D>, formatDate: D -> string, now: D): string
  {
    var language := if options.language.Some? then options.language.value else "en-us";
    var lastBuildDate := if options.lastBuildDate.Some? then options.lastBuildDate.value else now;
    Channel(options.title, options.description, options.link, language, formatDate(lastBuildDate),
            Join(ItemBlocks(options.items, formatDate), "\n"))
  }

  /** The `itemParts` array of one item, filled with `push`. */
  method ItemParts<D>(item: FeedItem<D>, formatDate: D -> string) returns (itemParts: seq<string>)
    ensures itemParts == ItemLines(item, formatDate)
  {
    itemParts := [Element("title", EscapeXml(item.title))];
    ghost var done := itemParts;
    if item.link != "" {
      itemParts := itemParts + [Element("link", EscapeXml(item.link))];
    }
    assert itemParts == done + LinkLines(item);
    done := itemParts;
    if item.description != "" {
      var plainDescription := StripHtml(item.description);
      itemParts := itemParts + [Element("description", EscapeXml(TruncateText(plainDescription, 500)))];
    }
    assert itemParts == done + DescriptionLines(item);
    done := itemParts;
    if item.content != "" {
      itemParts := itemParts + [ContentLine(item.content)];
    }
    assert itemParts == done + ContentLines(item);
    done := itemParts;
    if item.pubDate.Some? {
      itemParts := itemParts + [Element("pubDate", formatDate(item.pubDate.value))];
    }
    assert itemParts == done + PubDateLines(item, formatDate);
    done := itemParts;
    if item.guid != "" {
      var isPermalink := item.link == item.guid;
      itemParts := itemParts + [GuidLine(item.guid, isPermalink)];
    } else if item.link != "" {
      itemParts := itemParts + [GuidLine(item.link, true)];
    }
    assert itemParts == done + GuidLines(item);
    done := itemParts;
    if item.author != "" {
      itemParts := itemParts + [Element("author", EscapeXml(item.author))];
    }
    assert itemParts == done + AuthorLines(item);
    done := itemParts;
    itemParts := PushCategories(itemParts, item.category);
  }

  /** `item.category.forEach(cat => itemParts.push(...))`. */
  method PushCategories(parts: seq<string>, cats: seq<string>) returns (itemParts: seq<string>)
    ensures itemParts == parts + CategoryLines(cats)
  {
    itemParts := parts;
    for i := 0 to |cats|
      invariant itemParts == parts + CategoryLines(cats[..i])
    {
      assert cats[..i + 1][..i] == cats[..i];
      itemParts := itemParts + [Element("category", EscapeXml(cats[i]))];
    }
    assert cats[..|cats|] == cats;
  }

  /** `generateRSSFeed`: one `<item>` block per item, joined by newlines, inside the channel. */
  method GenerateRssFeed<D>(options: FeedOptions<D>, formatDate: D -> string, now: D) returns (xml: string)
    ensures xml == Feed(options, formatDate, now)
  {
    var items := options.items;
    var itemXmls: seq<string> := [];
    for i := 0 to |items|
      invariant |itemXmls| == i
      invariant forall k :: 0 <= k < i ==> itemXmls[k] == ItemXml(items[k], formatDate)
    {
      var itemParts := ItemParts(items[i], formatDate);
      itemXmls := itemXmls + [ItemBlock(itemParts)];
    }
    assert itemXmls == ItemBlocks(items, formatDate);
    var itemsXml := Join(itemXmls, "\n");
    var language := if options.language.Some? then options.language.value else "en-us";
    var lastBuildDate := if options.lastBuildDate.Some? then options.lastBuildDate.value else now;
    xml := Channel(options.title, options.description, options.link, language, formatDate(lastBuildDate), itemsXml);
  }

  /** The i-th category line carries the i-th category, escaped. */
  lemma {:induction false} CategoryLinesAt(cats: seq<string>, i: int)
    requires 0 <= i < |cats|
    ensures CategoryLines(cats)[i] == Element("category", EscapeXml(cats[i]))
    decreases |cats|
  {
    if i < |cats| - 1 {
      CategoryLinesAt(cats[..|cats| - 1], i);
    }
  }

  /**
   * The item's lines begin with the escaped title and end with one
   * `<category>` line per category, in order.
   */
  lemma ItemLinesShape<D>(item: FeedItem<D>, formatDate: D -> string)
    ensures var lines := ItemLines(item, formatDate);
      && |lines| >= 1 + |item.category|
      && lines[0] == Element("title", EscapeXml(item.title))
      && forall i :: 0 <= i < |item.category| ==>
           lines[|lines| - |item.category| + i] == Element("category", EscapeXml(item.category[i]))
  {
    var lines := ItemLines(item, formatDate);
    var cl := CategoryLines(item.category);
    var front := lines[..|lines| - |cl|];
    assert lines == front + cl;
    forall i | 0 <= i < |item.category|
      ensures lines[|lines| - |item.category| + i] == Element("category", EscapeXml(item.category[i]))
    {
      CategoryLinesAt(item.category, i);
    }
  }

  /**
   * The guid rule: an explicit guid is marked as a permalink exactly when it
   * equals the link; without one, a link is used as a permalink guid; with
   * neither, there is no `<guid>` line.
   */
  lemma GuidRule<D>(item: FeedItem<D>)
    ensures item.guid != "" ==> |GuidLines(item)| == 1 && (PermalinkOpen <= GuidLines(item)[0] <==> item.guid == item.link)
    ensures item.guid == "" && item.link != "" ==> GuidLines(item) == [PermalinkOpen + EscapeXml(item.link) + "</guid>"]
    ensures item.guid == "" && item.link == "" ==> GuidLines(item) == []
  {
    if item.guid != "" {
      var line := GuidLines(item)[0];
      var tail := EscapeXml(item.guid) + "</guid>";
      if item.guid == item.link {
        assert line == PermalinkOpen + tail;
      } else {
        assert line == (Indent + "<guid>") + tail;
        assert line[|Indent| + 5] == '>' != PermalinkOpen[|Indent| + 5];
      }
    }
  }

  /** `truncateText` keeps at most `maxLength` characters, plus the three dots when it cuts. */
  lemma TruncateTextLength(text: string, maxLength: int)
    ensures |TruncateText(text, maxLength)| <= (if maxLength < 0 then 0 else maxLength) + 3
  {
    TruncateTextSpec(text, maxLength);
  }

  /**
   * A non-empty description yields one `<description>` line, holding plain
   * text of at most 503 characters, escaped so that it carries no markup.
   */
  lemma DescriptionRule<D>(item: FeedItem<D>)
    ensures item.description == "" ==> DescriptionLines(item) == []
    ensures item.description != "" ==>
      var t := PlainDescription(item.description);
      && |t| <= 503
      && DescriptionLines(item) == [Element("description", EscapeXml(t))]
      && Escaped(EscapeXml(t))
  {
    if item.description != "" {
      var t := PlainDescription(item.description);
      TruncateTextLength(StripHtml(item.description), 500);
      EscapedSafe(t);
    }
  }
}
