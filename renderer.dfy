/**
 * `renderBlogContent`: folds the article's ordered section list into one
 * markup string. Code bodies are escaped; every other field is inserted as
 * given; a section whose type tag is none of the seven known ones adds nothing.
 */
module ContentRenderer {
  import opened Wrappers
  import opened Text
  import opened HtmlEscape

  /** One parsed section of the content document, by its `type` tag. */
  datatype Section =
    | Heading(level: nat, content: string)
    | Paragraph(content: string)
    | List(ordered: bool, items: seq<string>)
    | Code(language: Option<string>, content: string)
    | Quote(content: string)
    | InfoBox(title: string, content: string)
    | Example(title: string, content: string)
    | Unrecognized(tag: string)

  /** `section.language || 'text'`: an absent or empty label reads "text". */
  function CodeLabel(language: Option<string>): (shown: string)
    ensures shown != ""
    ensures language.Some? && language.value != "" ==> shown == language.value
    ensures language.Some? && language.value == "" ==> shown == "text"
    ensures language.None? ==> shown == "text"
  {
    match language
    case Some(l) => if l == "" then "text" else l
    case None => "text"
  }

  /** The code block up to and including the opening `<pre><code>`. */
  function CodeHead(languageLabel: string): string
  {
    "\n" + "                        " + "<div class=\"code-block\">\n"
    + "                            " + "<div class=\"code-header\">\n"
    + "                                " + "<span class=\"code-language\">" + languageLabel + "</span>\n"
    + "                                " + "<button class=\"copy-btn\" " + "onclick=\"copyCode(this)\">"
      + "\U{1F4CB} Copy" + "</button>\n"
    + "                            " + "</div>\n"
    + "                            " + "<pre><code>"
  }

  /** The code block from the closing `</code></pre>` on. */
  function CodeTail(): string
  {
    "</code></pre>\n" + "                        " + "</div>\n" + "                    "
  }

  /** The titled callout card shared by info boxes and examples. */
  function Callout(cssClass: string, icon: string, title: string, content: string): string
  {
    CalloutHead(cssClass, icon) + title + CalloutMiddle() + content + CalloutTail()
  }

  function CalloutHead(cssClass: string, icon: string): string
  {
    "\n" + "                        " + "<div class=\"" + cssClass + "\">\n"
    + "                            " + "<h4>" + icon + " "
  }

  function CalloutMiddle(): string
  {
    "</h4>\n" + "                            " + "<p>"
  }

  function CalloutTail(): string
  {
    "</p>\n" + "                        " + "</div>\n" + "                    "
  }

  function ListTag(ordered: bool): string
  {
    if ordered then "ol" else "ul"
  }

  function ListItem(item: string): string
  {
    "<li>" + item + "</li>"
  }

  /** The `<li>` elements of a list, one per item, in order. */
  function ItemsHtml(items: seq<string>): string
  {
    ConcatMap(ListItem, items)
  }

  /** The markup fragment of one section. */
  function RenderSection(section: Section): string
  {
    match section
    case Heading(level, content) =>
      "<h" + Decimal(level) + ">" + content + "</h" + Decimal(level) + ">"
    case Paragraph(content) => "<p>" + content + "</p>"
    case List(ordered, items) =>
      "<" + ListTag(ordered) + ">" + ItemsHtml(items) + "</" + ListTag(ordered) + ">"
    case Code(language, content) => CodeHead(CodeLabel(language)) + EscapeHtml(content) + CodeTail()
    case Quote(content) => "<blockquote>" + content + "</blockquote>"
    case InfoBox(title, content) => Callout("info-box", "\U{1F4A1}", title, content)
    case Example(title, content) => Callout("example-box", "\U{1F3AF}", title, content)
    case Unrecognized(_) => ""
  }

  /** The whole document: the fragments of its sections, in order. */
  function RenderDocument(sections: seq<Section>): string
  {
    ConcatMap(RenderSection, sections)
  }

  /** The renderer's loop: `htmlContent +=` per section, and per list item inside a list. */
  method RenderBlogContent(sections: seq<Section>) returns (html: string)
    ensures html == RenderDocument(sections)
  {
    html := "";
    for i := 0 to |sections|
      invariant html == RenderDocument(sections[..i])
    {
      assert sections[..i + 1][..i] == sections[..i];
      var fragment;
      match sections[i] {
        case List(ordered, items) =>
          var listed := "";
          for j := 0 to |items|
            invariant listed == ItemsHtml(items[..j])
          {
            assert items[..j + 1][..j] == items[..j];
            listed := listed + "<li>" + items[j] + "</li>";
          }
          assert items[..|items|] == items;
          fragment := "<" + ListTag(ordered) + ">" + listed + "</" + ListTag(ordered) + ">";
        case _ =>
          fragment := RenderSection(sections[i]);
      }
      assert fragment == RenderSection(sections[i]);
      html := html + fragment;
    }
    assert sections[..|sections|] == sections;
  }

  /** Section `i`'s fragment sits between the fragments of the sections before and after it. */
  lemma RenderDocumentFragments(sections: seq<Section>, i: nat)
    requires i < |sections|
    ensures RenderDocument(sections) ==
      RenderDocument(sections[..i]) + RenderSection(sections[i]) + RenderDocument(sections[i + 1..])
  {
    ConcatMapAt(RenderSection, sections, i);
  }

  predicate Recognized(section: Section)
  {
    !section.Unrecognized?
  }

  /** The document with every section of an unknown type dropped. */
  function RecognizedOnly(sections: seq<Section>): (r: seq<Section>)
    ensures |r| <= |sections|
    ensures forall i :: 0 <= i < |r| ==> Recognized(r[i])
    ensures forall s :: s in r <==> s in sections && Recognized(s)
  {
    if sections == [] then []
    else if Recognized(sections[0]) then [sections[0]] + RecognizedOnly(sections[1..])
    else RecognizedOnly(sections[1..])
  }

  /** The filter keeps order: filtering a concatenation filters each part in turn. */
  lemma {:induction false} RecognizedOnlyAppend(a: seq<Section>, b: seq<Section>)
    ensures RecognizedOnly(a + b) == RecognizedOnly(a) + RecognizedOnly(b)
  {
    if a == [] {
      assert a + b == b;
    } else {
      assert (a + b)[0] == a[0] && (a + b)[1..] == a[1..] + b;
      RecognizedOnlyAppend(a[1..], b);
    }
  }

  /** A single section is kept exactly when it is recognized. */
  lemma RecognizedOnlySingle(section: Section)
    ensures RecognizedOnly([section]) == if Recognized(section) then [section] else []
  {
    assert [section][1..] == [];
  }

  /** Unknown section types contribute nothing: dropping them leaves the output unchanged. */
  lemma {:induction false} RenderSkipsUnrecognized(sections: seq<Section>)
    ensures RenderDocument(RecognizedOnly(sections)) == RenderDocument(sections)
  {
    if sections != [] {
      assert sections == [sections[0]] + sections[1..];
      ConcatMapAppend(RenderSection, [sections[0]], sections[1..]);
      ConcatMapSingle(RenderSection, sections[0]);
      RenderSkipsUnrecognized(sections[1..]);
      if Recognized(sections[0]) {
        ConcatMapAppend(RenderSection, [sections[0]], RecognizedOnly(sections[1..]));
      }
    }
  }

  /** Every recognized section yields a non-empty fragment; an unrecognized one yields none. */
  lemma FragmentPresence(section: Section)
    ensures RenderSection(section) == "" <==> !Recognized(section)
  {
  }

  lemma Enclosed(open: string, content: string, close: string)
    ensures var r := open + content + close;
      |r| == |open| + |content| + |close|
      && r[..|open|] == open
      && r[|open|..|open| + |content|] == content
      && r[|open| + |content|..] == close
  {
  }

  /** A heading of level n is an `<hn>` element around its content, unescaped. */
  lemma HeadingVerbatim(level: nat, content: string)
    ensures var r, open, close := RenderSection(Heading(level, content)),
                                  "<h" + Decimal(level) + ">", "</h" + Decimal(level) + ">";
      |r| == |open| + |content| + |close|
      && r[..|open|] == open
      && r[|open|..|open| + |content|] == content
      && r[|open| + |content|..] == close
  {
    var open, close := "<h" + Decimal(level) + ">", "</h" + Decimal(level) + ">";
    assert RenderSection(Heading(level, content)) == open + content + close;
    Enclosed(open, content, close);
  }

  /** Paragraph and quote text is placed between its tags as given, unescaped. */
  lemma ProseVerbatim(content: string)
    ensures var p := RenderSection(Paragraph(content));
      |p| == 7 + |content| && p[..3] == "<p>" && p[3..3 + |content|] == content
      && p[3 + |content|..] == "</p>"
    ensures var q := RenderSection(Quote(content));
      |q| == 25 + |content| && q[..12] == "<blockquote>" && q[12..12 + |content|] == content
      && q[12 + |content|..] == "</blockquote>"
  {
    Enclosed("<p>", content, "</p>");
    Enclosed("<blockquote>", content, "</blockquote>");
  }

  /** Five pieces laid end to end: each one can be read back at its place. */
  lemma Framed(head: string, title: string, middle: string, content: string, tail: string)
    ensures var r, titleEnd := head + title + middle + content + tail, |head| + |title|;
      var bodyStart := titleEnd + |middle|;
      |r| == bodyStart + |content| + |tail|
      && r[..|head|] == head
      && r[|head|..titleEnd] == title
      && r[titleEnd..bodyStart] == middle
      && r[bodyStart..bodyStart + |content|] == content
      && r[bodyStart + |content|..] == tail
  {
    var opening := head + title + middle;
    var r := opening + content + tail;
    Enclosed(opening, content, tail);
    Enclosed(head, title, middle);
    assert r[..|head|] == opening[..|head|];
    assert r[|head|..|head| + |title|] == opening[|head|..|head| + |title|];
    assert r[|head| + |title|..|opening|] == opening[|head| + |title|..];
  }

  /**
   * An info box or example card shows its title in the `<h4>` after the icon
   * and its body in the `<p>`, both as given, unescaped, between fixed markup.
   */
  lemma CalloutVerbatim(cssClass: string, icon: string, title: string, content: string)
    ensures var r, head := Callout(cssClass, icon, title, content), CalloutHead(cssClass, icon);
      var titleEnd := |head| + |title|;
      var bodyStart := titleEnd + |CalloutMiddle()|;
      |r| == bodyStart + |content| + |CalloutTail()|
      && r[..|head|] == head
      && r[|head|..titleEnd] == title
      && r[titleEnd..bodyStart] == CalloutMiddle()
      && r[bodyStart..bodyStart + |content|] == content
      && r[bodyStart + |content|..] == CalloutTail()
  {
    Framed(CalloutHead(cssClass, icon), title, CalloutMiddle(), content, CalloutTail());
  }

  lemma ListOpening(ordered: bool, items: seq<string>)
    ensures var r := RenderSection(List(ordered, items));
      |r| >= 4 && (r[..4] == "<ol>" <==> ordered)
  {
    var open := "<" + ListTag(ordered) + ">";
    var r := RenderSection(List(ordered, items));
    assert r == open + (ItemsHtml(items) + "</" + ListTag(ordered) + ">");
    assert r[..4] == open;
    assert open[1] == (if ordered then 'o' else 'u');
  }

  /** A list is `ol` exactly when it is ordered, with one `<li>` element per item, in order. */
  lemma ListItems(ordered: bool, items: seq<string>, i: nat)
    requires i < |items|
    ensures var r := RenderSection(List(ordered, items));
      (r[..4] == "<ol>" <==> ordered)
      && r == "<" + ListTag(ordered) + ">" + ItemsHtml(items[..i]) + ListItem(items[i])
              + ItemsHtml(items[i + 1..]) + "</" + ListTag(ordered) + ">"
  {
    ListOpening(ordered, items);
    ConcatMapAt(ListItem, items, i);
  }

  /**
   * A code block's body is the escaped content: it holds no live markup, and
   * its visible text is the content exactly.
   */
  lemma CodeBodyEscaped(language: Option<string>, content: string)
    ensures var body := EscapeHtml(content);
      RenderSection(Code(language, content)) == CodeHead(CodeLabel(language)) + body + CodeTail()
      && Inert(body)
      && Unescape(body) == content
  {
    EscapeHtmlInert(content);
    UnescapeEscapeHtml(content);
  }

  lemma RenderPair(first: Section, second: Section)
    ensures RenderDocument([first, second]) == RenderSection(first) + RenderSection(second)
  {
    ConcatMapSnoc(RenderSection, [first], second);
    ConcatMapSingle(RenderSection, first);
    assert [first] + [second] == [first, second];
  }

  lemma HeadingIntroExample()
    ensures RenderSection(Heading(2, "Intro")) == "<h2>Intro</h2>"
  {
    assert Decimal(2) == "2";
  }

  /**
   * A level-2 heading followed by a code block labelled "js" whose content is
   * the markup `<b>hi</b>`: the heading is `<h2>Intro</h2>`, and the code body
   * is inert text that reads back as that literal markup.
   */
  lemma HeadingThenCodeExample()
    ensures var body := EscapeHtml("<b>hi</b>");
      RenderDocument([Heading(2, "Intro"), Code(Some("js"), "<b>hi</b>")])
        == "<h2>Intro</h2>" + (CodeHead("js") + body + CodeTail())
      && Inert(body) && Unescape(body) == "<b>hi</b>"
  {
    RenderPair(Heading(2, "Intro"), Code(Some("js"), "<b>hi</b>"));
    HeadingIntroExample();
    CodeBodyEscaped(Some("js"), "<b>hi</b>");
    assert CodeLabel(Some("js")) == "js";
  }
}
