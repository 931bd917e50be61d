# Blog platform core in Dafny

A model of the data-handling core of the blog page's script
(`blog/js/script.js`). It covers:

- **Article rendering.** `renderBlogContent` folds the article's ordered list
  of typed sections into one markup string. The section types are heading,
  paragraph, list, code, quote, info box and example. Code bodies pass
  through `escapeHtml`; every other field is inserted as given; a section of
  any other type adds nothing.
- **HTML escaping.** `escapeHtml` is a chain of five global replacements:
  `&`, `<`, `>`, `"` and `'`.
- **Comments.** `handleCommentSubmit` runs its validation chain. The
  `BlogPlatform` object keeps an append-only `comments` list, and
  `addComment` / `renderComments` re-render the whole list after each push.
- **Dates.** `formatDate` (days, rounded up) and `formatRelativeTime`
  (minutes, hours or days, rounded down) turn the time since a timestamp into
  text.
- **Colours.** `hexToRgb` and `rgbToHex` convert between "#rrggbb" and three
  channels.
- **Cookies.** `cookies.get` looks a name up in the `document.cookie` string.

Modules, one per file:

- `Wrappers` holds `Option`.
- `Text` holds decimal numerals and the order-preserving concatenation used
  by `forEach`/`map(...).join('')`.
- The others are `HtmlEscape`, `ContentRenderer`, `DateFormat`, `Comments`,
  `Colors` and `Cookies`.

The renderer and `renderComments` are specified by pure functions of their
input (`RenderDocument`, `RenderCommentList`). The renderer's loop, including
its inner loop over list items, is a method proved equal to that function.
`BlogPlatform` is a class whose `comments` field the methods update in place.
`cookies.get` is a method with the source's two nested loops, proved equal to
a first-match lookup.

## Model

| member | source | states |
|---|---|---|
| HtmlEscape.ReplaceAll | blog/js/script.js:436-441 | one `.replace(/c/g, …)` step: if the replacement text lacks the character, no occurrence is left; if the input lacks it, the input comes back unchanged |
| HtmlEscape.EscapeHtmlIsPerChar | blog/js/script.js:435-442 | the five chained replacements equal replacing each character by its own entity in one pass, so `&amp;` inserted first is never re-escaped by later steps |
| HtmlEscape.EscapeSingle | blog/js/script.js:435-442 | a single character escapes to its entity (`&amp;`, `&lt;`, `&gt;`, `&quot;`, `&#039;`) or to itself |
| HtmlEscape.EscapeAppend | blog/js/script.js:435-442 | escaping distributes over concatenation |
| HtmlEscape.EscapeHtmlInert | blog/js/script.js:435-442 | escaped text contains no raw `<`, `>`, `"` or `'`, so it cannot open a tag or end an attribute value |
| HtmlEscape.UnescapeEscapeHtml | blog/js/script.js:435-442 | decoding the five entities in escaped text gives the original text back (round trip) |
| HtmlEscape.EscapeHtmlUnchanged | blog/js/script.js:435-442 | escaping leaves text unchanged exactly when it has none of the five special characters |
| ContentRenderer.CodeLabel | blog/js/script.js:89 | `section.language \|\| 'text'`: a present, non-empty language is shown as given; an absent or empty one reads "text" |
| ContentRenderer.RenderBlogContent | blog/js/script.js:63-120 | the loop over sections, with its inner loop over list items, produces exactly the concatenation of the sections' fragments in order |
| ContentRenderer.RenderDocumentFragments | blog/js/script.js:69-116 | section i's fragment sits in the output between the fragments of the sections before it and those after it |
| ContentRenderer.RecognizedOnly | blog/js/script.js:70-116 | the sections the switch has a case for: a section is kept exactly when it is in the input and of a known type |
| ContentRenderer.RecognizedOnlyAppend | blog/js/script.js:70-116 | the filter keeps document order: filtering a concatenation filters each part in turn |
| ContentRenderer.RecognizedOnlySingle | blog/js/script.js:70-116 | a single section is kept exactly when its type is one of the seven cases |
| ContentRenderer.RenderSkipsUnrecognized | blog/js/script.js:70-116 | dropping every section of an unknown type leaves the output unchanged |
| ContentRenderer.FragmentPresence | blog/js/script.js:70-116 | a section yields an empty fragment exactly when its type is not one of the seven cases |
| ContentRenderer.HeadingVerbatim | blog/js/script.js:71-73 | a heading is `<hN>`, the content unescaped, `</hN>`, with N the level written in decimal |
| ContentRenderer.HeadingIntroExample | blog/js/script.js:71-73 | a level-2 heading "Intro" renders as `<h2>Intro</h2>` |
| ContentRenderer.ProseVerbatim | blog/js/script.js:74-99 | a paragraph (74-76) is its content between `<p>` and `</p>`; a quote (97-99) is its content between `<blockquote>` and `</blockquote>`; both unescaped |
| ContentRenderer.ListOpening | blog/js/script.js:77-79 | a list opens with `<ol>` exactly when it is ordered, otherwise with `<ul>` |
| ContentRenderer.ListItems | blog/js/script.js:77-84 | item i of a list appears as `<li>item</li>` between the earlier and later items' elements, inside the list tag |
| ContentRenderer.CodeBodyEscaped | blog/js/script.js:85-95 | a code block is the header with its label, then the escaped content, then the closing tags; the body is inert and reads back as the content |
| ContentRenderer.CalloutVerbatim | blog/js/script.js:100-115 | the card of an info box (class `info-box`, icon 💡) or example (class `example-box`, icon 🎯) is the opening `<div>` and `<h4>` with the icon, then the title, then `</h4>` and `<p>`, then the content, then `</p>` and `</div>`; title and content unescaped |
| ContentRenderer.RenderPair | blog/js/script.js:69-116 | two sections render as the first fragment followed by the second |
| ContentRenderer.HeadingThenCodeExample | blog/js/script.js:69-95 | a heading followed by a code block whose content is markup: the heading is `<h2>Intro</h2>`, and the code body is inert and reads back as that markup |
| DateFormat.CeilDays | blog/js/script.js:759 | `Math.ceil(ms / day)`: the least number of whole days covering the gap |
| DateFormat.FormatDate | blog/js/script.js:755-772 | a zero gap reads "0 days ago"; a gap up to one day reads "Yesterday"; beyond six days it is the locale date |
| DateFormat.FormatDateDaysAgo | blog/js/script.js:761-764 | a gap in (k-1, k] days, for k from 2 to 6, reads "k days ago" |
| DateFormat.FormatDateExamples | blog/js/script.js:755-772 | one day back and half a day back read "Yesterday"; five days back reads "5 days ago"; ten days back is the locale date |
| DateFormat.FormatRelativeTime | blog/js/script.js:775-798 | under a minute reads "Just now"; a week or more is the locale date |
| DateFormat.RelativeMinutes | blog/js/script.js:783-786 | k whole minutes (1 ≤ k < 60) read "k minute ago" for k = 1, else "k minutes ago" |
| DateFormat.RelativeHours | blog/js/script.js:787-788 | k whole hours (1 ≤ k < 24) read "k hour(s) ago" |
| DateFormat.RelativeDays | blog/js/script.js:789-790 | k whole days (1 ≤ k < 7) read "k day(s) ago" |
| DateFormat.FormattersDisagree | blog/js/script.js:755-798 | twelve hours back is "Yesterday" for `formatDate` and "12 hours ago" for `formatRelativeTime` |
| Text.Decimal | blog/js/script.js:72 | a number in a template literal: non-empty, all digits, a leading zero only for zero |
| Text.DecimalRoundTrip | blog/js/script.js:72 | the decimal numeral reads back as the number |
| Text.DecimalInjective | blog/js/script.js:72 | different numbers have different numerals, so a heading's level is recoverable from its tag |
| Comments.ValidateComment | blog/js/script.js:665-678 | accepted exactly when the name is non-empty, the email contains `@`, and the content has at least ten characters; a missing field is reported first, then a bad email, then a short body |
| Comments.ValidationLengthBoundary | blog/js/script.js:675-678 | with a valid name and email, nine characters are too short and ten are accepted |
| Comments.Avatar | blog/js/script.js:727 | `charAt(0).toUpperCase()`: one capitalised character for a non-empty name, the same letter up to case; nothing for an empty name |
| Comments.NoCommentsPlaceholder | blog/js/script.js:713-720 | with no comments the list is exactly the "No comments yet" placeholder |
| Comments.CommentCardAt | blog/js/script.js:723-736 | comment i's card sits between the cards of the comments before and after it |
| Comments.CardBodyEscaped | blog/js/script.js:723-736 | a card shows the initial, the raw name, the formatted date and the escaped body; the body is inert and reads back as the comment |
| Comments.RenderCommentListAppend | blog/js/script.js:704-736 | after a push, the list renders as before plus the new card at the end; the placeholder is replaced by the first card |
| Comments.SampleCommentDates | blog/js/script.js:1103-1124 | the three comments seeded at start-up are stamped one day, twelve hours and two hours before the seeding instant; rendered at that instant all three show "Yesterday", but from one millisecond later the day-old one shows "2 days ago", while the other two keep "Yesterday" for another twelve and twenty-two hours |
| Comments.FreshCommentDate | blog/js/script.js:755-764 | a comment shown less than a day after it was posted, even one second later, is dated "Yesterday" on its card |
| Comments.BlogPlatform.constructor | blog/js/script.js:5 | the comment list starts empty |
| Comments.BlogPlatform.RenderComments | blog/js/script.js:709-736 | the markup is the list's rendering, and every comment's card sits in it between the cards of the comments before and after it, in list order |
| Comments.BlogPlatform.AddComment | blog/js/script.js:704-707 | the comment is appended and earlier ones stay as they were; the returned markup is the rendering of the new list |
| Comments.BlogPlatform.SubmitComment | blog/js/script.js:656-701 | the verdict is the validation result; only an accepted comment, stamped with its submission time, is appended and rendered; a rejected one changes nothing |
| Colors.HexToRgb | blog/js/script.js:1293-1300 | a colour is returned exactly when, after an optional `#`, there are six hex digits in either case; each channel is at most 255 |
| Colors.HexOfValue | blog/js/script.js:1303 | `toString(16)` of a number writes exactly the base-16 digits it was built from, when there is no leading zero |
| Colors.HexOfColour | blog/js/script.js:1303 | `(1 << 24) + (r << 16) + (g << 8) + b` in hex is "1" followed by two digits per channel |
| Colors.RgbToHexDigits | blog/js/script.js:1302-1304 | `rgbToHex` gives "#" and two lower-case hex digits per channel, high digit first |
| Colors.HexToRgbOfRgbToHex | blog/js/script.js:1293-1304 | decoding an encoded colour gives the colour back |
| Colors.RgbToHexOfHexToRgb | blog/js/script.js:1293-1304 | encoding a decoded colour gives the input back in canonical form: with `#` and in lower case |
| Cookies.Split | blog/js/script.js:1369 | `split(';')` gives at least one piece, and no piece holds the separator |
| Cookies.JoinSplit | blog/js/script.js:1369 | joining the pieces again gives the cookie string back |
| Cookies.TrimLeadingSpaces | blog/js/script.js:1372 | the inner loop leaves a string that is empty or does not start with a blank |
| Cookies.TrimmedSuffix | blog/js/script.js:1372 | trimming removes only blanks, and only from the front |
| Cookies.CookieGet | blog/js/script.js:1367-1376 | the two loops return the value after `name=` in the first entry that starts with it once its blanks are trimmed, or `null` |
| Cookies.LookupFirstMatch | blog/js/script.js:1370-1375 | the first matching entry decides the result; later entries are never read |
| Cookies.LookupNone | blog/js/script.js:1370-1376 | `null` exactly when no entry matches |
| Cookies.GetFindsFirstCookie | blog/js/script.js:1367-1376 | on a cookie string of `name=value` entries joined by "; ", with names free of `;`, `=` and leading blanks and values free of `;`, `get` returns the first value stored under that name, or `null` when there is none |

## Left out

- Loading the article (`loadBlogContent` and its `fetch`) is left out because it is network I/O. The parsed section list is the renderer's input. `renderFallbackContent` is not part of this model.
- The `blogData` and container null guards of `renderBlogContent` and `renderComments` are left out. They only skip the DOM write, and the model returns the markup instead of assigning `innerHTML`.
- Fade-in animations, transition styles, toasts, the submit button's "Posting..." state and form reset are left out because they only change presentation.
- The one-second `setTimeout` before `addComment` in `handleCommentSubmit` is left out; the model appends immediately.
- The clock (`new Date()`) is left out: it becomes the `now` parameter, and the submit time becomes `submittedAt`. Timestamps are integer milliseconds, not ISO strings, and invalid dates (NaN) are not modelled.
- `toLocaleDateString('en-US', …)` becomes the `localeDate` function parameter, because calendar formatting is locale data outside the script.
- A field missing from `FormData` (`null`) is modelled as the empty string; both fail the `!name` test the same way.
- A section's `level` is a natural number and `ordered` a boolean. JavaScript truthiness of other JSON values is not modelled.
- Every section carries every field of its type, as a string (a list its `items`). A missing `content`, `title` or `level` would insert the text "undefined". A list without `items`, or a code section whose `content` is missing or not a string, throws a TypeError that aborts the whole render into the load error handler. None of these paths is modelled.
- Strings are sequences of Unicode scalar values. JavaScript's UTF-16 code units differ for characters outside the Basic Multilingual Plane, in `content.length` and `charAt(0)`.
- Comments.Avatar: capitalises ASCII letters only; `toUpperCase` on other scripts is Unicode case mapping, which is not modelled.
- Colors.RgbToHexDigits: requires each channel to be in 0..255. Out-of-range or fractional channels go through JavaScript's 32-bit shifts and float addition, which are not modelled.
- `cookies.set` and `cookies.remove` are left out: they only write the browser's cookie store. `document.cookie` is the `cookie` parameter of `CookieGet`. Cookies.GetFindsFirstCookie models the browser's own `"; "`-joined form of that string.
- Theme, accessibility, search, reading progress, keyboard shortcuts and other page behaviour in the same file are not part of this model.

## Notes

- The function `formatDate` is modelled as the code computes it. Its bucket is `Math.ceil` of the gap in days, so any gap of more than zero and at most 24 hours reads "Yesterday", not only a gap of exactly one day. A gap of exactly zero reads "0 days ago". A timestamp in the future is measured by its absolute distance.
- As a consequence, the comment list dates a comment that was just posted "Yesterday" (`FreshCommentDate`). The sample comments seeded at start-up show "Yesterday" only at the seeding instant itself; the day-old one shows "2 days ago" as soon as the clock has moved on by one millisecond (`SampleCommentDates`).
- `formatRelativeTime` rounds down instead. Below a day the two formatters therefore disagree: twelve hours back is "Yesterday" for one and "12 hours ago" for the other.
- `escapeHtml` is applied only to code bodies and comment bodies. Headings, paragraphs, list items, quotes, callout titles and content, and comment author names are inserted unescaped. The lemmas that state this say "as given, unescaped".
