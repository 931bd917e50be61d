/**
 * The comment list: submission checks, the append-only `comments` field of
 * `BlogPlatform`, and the markup `renderComments` gives for it.
 */
module Comments {
  import opened Wrappers
  import opened Text
  import opened HtmlEscape
  import opened DateFormat

  /** A submitted comment; `timestamp` is the submission time in milliseconds. */
  datatype Comment = Comment(name: string, email: string, content: string, timestamp: int)

  /** The outcome of the submit handler's checks, each rejection with its own notice. */
  datatype Verdict = Accepted | MissingField | InvalidEmail | TooShort

  /**
   * The checks of `handleCommentSubmit`, in order: a missing field, then an
   * email without `@`, then a body shorter than ten characters.
   */
  function ValidateComment(name: string, email: string, content: string): (v: Verdict)
    ensures v == Accepted <==> name != "" && '@' in email && |content| >= 10
    ensures v == MissingField <==> name == "" || email == "" || content == ""
    ensures v == InvalidEmail ==> email != "" && '@' !in email
    ensures v == TooShort ==> 0 < |content| < 10 && '@' in email
  {
    if name == "" || email == "" || content == "" then MissingField
    else if '@' !in email then InvalidEmail
    else if |content| < 10 then TooShort
    else Accepted
  }

  /** With name and email in order, nine characters are rejected as too short and ten accepted. */
  lemma ValidationLengthBoundary(name: string, email: string, nine: string, ten: string)
    requires name != "" && '@' in email
    requires |nine| == 9 && |ten| == 10
    ensures ValidateComment(name, email, nine) == TooShort
    ensures ValidateComment(name, email, ten) == Accepted
  {
  }

  function UpperAscii(c: char): char
  {
    if 'a' <= c <= 'z' then (c as int - 32) as char else c
  }

  function LowerAscii(c: char): char
  {
    if 'A' <= c <= 'Z' then (c as int + 32) as char else c
  }

  /** `name.charAt(0).toUpperCase()`: the first letter, capitalised; nothing for an empty name. */
  function Avatar(name: string): (glyph: string)
    ensures |glyph| == if name == "" then 0 else 1
    ensures name != "" ==> !('a' <= glyph[0] <= 'z') && LowerAscii(glyph[0]) == LowerAscii(name[0])
  {
    if name == "" then "" else [UpperAscii(name[0])]
  }

  /** The card up to and including the opening of the comment-content element. */
  function CardHead(avatar: string, name: string, date: string): string
  {
    "\n" + "        " + "<div class=\"comment-item\">\n"
    + "            " + "<div class=\"comment-header\">\n"
    + "                " + "<div class=\"comment-avatar\">\n"
    + "                    " + avatar + "\n"
    + "                " + "</div>\n"
    + "                " + "<div class=\"comment-meta\">\n"
    + "                    " + "<div class=\"comment-name\">" + name + "</div>\n"
    + "                    " + "<div class=\"comment-date\">" + date + "</div>\n"
    + "                " + "</div>\n"
    + "            " + "</div>\n"
    + "            " + "<div class=\"comment-content\">"
  }

  function CardTail(): string
  {
    "</div>\n" + "        " + "</div>\n" + "    "
  }

  /** One comment's card: avatar, raw name, formatted date and escaped body. */
  function Card(comment: Comment, now: int, localeDate: int -> string): string
  {
    CardHead(Avatar(comment.name), comment.name, FormatDate(comment.timestamp, now, localeDate))
    + EscapeHtml(comment.content) + CardTail()
  }

  function CardOf(now: int, localeDate: int -> string): Comment -> string
  {
    comment => Card(comment, now, localeDate)
  }

  /** The notice shown while there are no comments. */
  function EmptyPlaceholder(): string
  {
    "\n" + "            " + "<div style=\"" + "text-align: center; " + "padding: var(--space-4xl); "
    + "background: var(--glass-bg); " + "border-radius: var(--radius-lg); "
    + "backdrop-filter: blur(20px); " + "border: 1px solid " + "var(--glass-border);" + "\">\n"
    + "                " + "<p style=\"" + "color: var(--text-secondary); " + "font-size: var(--font-size-lg); "
    + "margin-bottom: var(--space-md);" + "\">" + "\U{1F4AC} No comments yet" + "</p>\n"
    + "                " + "<p style=\"" + "color: var(--text-tertiary); " + "font-size: var(--font-size-base);"
    + "\">" + "Be the first to share " + "your thoughts!" + "</p>\n"
    + "            " + "</div>\n" + "        "
  }

  /** `renderComments`: the placeholder for no comments, else the cards joined in list order. */
  function RenderCommentList(comments: seq<Comment>, now: int, localeDate: int -> string): string
  {
    if |comments| == 0 then EmptyPlaceholder() else ConcatMap(CardOf(now, localeDate), comments)
  }

  /** With no comments the list shows only the placeholder notice. */
  lemma NoCommentsPlaceholder(now: int, localeDate: int -> string)
    ensures RenderCommentList([], now, localeDate) == EmptyPlaceholder()
  {
  }

  /** In `html`, comment `i`'s card sits between the cards of the comments before and after it. */
  predicate CardBetween(html: string, comments: seq<Comment>, i: nat, now: int, localeDate: int -> string)
    requires i < |comments|
  {
    html == ConcatMap(CardOf(now, localeDate), comments[..i]) + Card(comments[i], now, localeDate)
            + ConcatMap(CardOf(now, localeDate), comments[i + 1..])
  }

  /** Comment `i`'s card sits between the cards of the comments before and after it. */
  lemma CommentCardAt(comments: seq<Comment>, now: int, localeDate: int -> string, i: nat)
    requires i < |comments|
    ensures CardBetween(RenderCommentList(comments, now, localeDate), comments, i, now, localeDate)
  {
    ConcatMapAt(CardOf(now, localeDate), comments, i);
  }

  /** One more comment adds exactly its card at the end, once the list is non-empty. */
  lemma RenderCommentListAppend(comments: seq<Comment>, comment: Comment, now: int, localeDate: int -> string)
    ensures RenderCommentList(comments + [comment], now, localeDate)
      == (if comments == [] then Card(comment, now, localeDate)
          else RenderCommentList(comments, now, localeDate) + Card(comment, now, localeDate))
  {
    var cardOf := CardOf(now, localeDate);
    ConcatMapSnoc(cardOf, comments, comment);
    assert cardOf(comment) == Card(comment, now, localeDate);
  }

  /**
   * The three comments seeded at start-up are stamped one day, twelve hours and
   * two hours before the seeding instant, and every re-render reads the clock
   * again. Rendered at that very instant all three show "Yesterday"; any later,
   * the day-old one already shows "2 days ago", while the other two keep
   * "Yesterday" for twelve and twenty-two more hours.
   */
  lemma SampleCommentDates(seededAt: int, renderedAt: int, localeDate: int -> string)
    ensures renderedAt == seededAt ==>
      FormatDate(seededAt - 86400000, renderedAt, localeDate) == "Yesterday"
    ensures seededAt < renderedAt <= seededAt + 86400000 ==>
      FormatDate(seededAt - 86400000, renderedAt, localeDate) == "2 days ago"
    ensures seededAt <= renderedAt <= seededAt + 43200000 ==>
      FormatDate(seededAt - 43200000, renderedAt, localeDate) == "Yesterday"
    ensures seededAt <= renderedAt <= seededAt + 79200000 ==>
      FormatDate(seededAt - 7200000, renderedAt, localeDate) == "Yesterday"
  {
    if seededAt < renderedAt <= seededAt + 86400000 {
      FormatDateDaysAgo(seededAt - 86400000, renderedAt, localeDate, 2);
      assert Decimal(2) == "2";
    }
  }

  /** A comment shown less than a day after it was posted, however fresh, is dated "Yesterday". */
  lemma FreshCommentDate(comment: Comment, now: int, localeDate: int -> string)
    requires comment.timestamp < now <= comment.timestamp + MsPerDay
    ensures Card(comment, now, localeDate)
      == CardHead(Avatar(comment.name), comment.name, "Yesterday") + EscapeHtml(comment.content) + CardTail()
  {
  }

  /**
   * A card shows the capitalised initial, the name as given, the formatted
   * date, and the body escaped: inert text that reads back as the comment.
   */
  lemma CardBodyEscaped(comment: Comment, now: int, localeDate: int -> string)
    ensures var body := EscapeHtml(comment.content);
      Card(comment, now, localeDate)
        == CardHead(Avatar(comment.name), comment.name, FormatDate(comment.timestamp, now, localeDate))
           + body + CardTail()
      && Inert(body)
      && Unescape(body) == comment.content
  {
    EscapeHtmlInert(comment.content);
    UnescapeEscapeHtml(comment.content);
  }

  /** The page object, reduced to the state this model keeps: the session's comments. */
  class BlogPlatform {
    var comments: seq<Comment>

    constructor ()
      ensures comments == []
    {
      comments := [];
    }

    /**
     * `renderComments`: the markup for the current list, one card per comment,
     * each card between those of its neighbours (the placeholder while the list
     * is empty, see `NoCommentsPlaceholder`).
     */
    method RenderComments(now: int, localeDate: int -> string) returns (html: string)
      ensures html == RenderCommentList(comments, now, localeDate)
      ensures forall i :: 0 <= i < |comments| ==> CardBetween(html, comments, i, now, localeDate)
    {
      html := RenderCommentList(comments, now, localeDate);
      forall i | 0 <= i < |comments|
        ensures CardBetween(html, comments, i, now, localeDate)
      {
        CommentCardAt(comments, now, localeDate, i);
      }
    }

    /** `addComment`: push the comment, then re-render; earlier comments are untouched. */
    method AddComment(comment: Comment, now: int, localeDate: int -> string) returns (html: string)
      modifies this
      ensures comments == old(comments) + [comment]
      ensures html == RenderCommentList(comments, now, localeDate)
    {
      comments := comments + [comment];
      html := RenderComments(now, localeDate);
    }

    /**
     * `handleCommentSubmit` once the form is read: the checks, then, if they
     * pass, the comment stamped with its submission time is added.
     */
    method SubmitComment(name: string, email: string, content: string, submittedAt: int,
                         now: int, localeDate: int -> string)
      returns (verdict: Verdict, html: Option<string>)
      modifies this
      ensures verdict == ValidateComment(name, email, content)
      ensures verdict == Accepted ==>
        comments == old(comments) + [Comment(name, email, content, submittedAt)]
        && html == Some(RenderCommentList(comments, now, localeDate))
      ensures verdict != Accepted ==> comments == old(comments) && html == None
    {
      verdict := ValidateComment(name, email, content);
      if verdict != Accepted {
        html := None;
        return;
      }
      var rendered := AddComment(Comment(name, email, content, submittedAt), now, localeDate);
      html := Some(rendered);
    }
  }
}
