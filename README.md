# A Dafny model of the localhosting blog and API core

The repository has two halves. One is a Next.js blog; the other is a FastAPI back end. This project models the logic of both in Dafny and proves what that logic promises.

- **Blog.** The remark plugin rewrites ASCII arrows and hearts into glyphs and turns `::…::` spans into `Kbd` elements (`RemarkSubstitutions`). The index page turns post files into post records, drops drafts, sorts, splits into sections and builds tag class strings (`BlogIndex`).
- **API.** The settings and the `CORS_ORIGINS` validator (`Config`). The contact form's schema (`ContactSchema`, over the shared field checks in `Validation`). The mailer and the two emails (`Email`). The two contact endpoints (`ContactRouter`). The item schema (`ItemSchema`) and the five item endpoints over an item table (`ItemsRouter`).
- **Shared.** `Strings` holds the string operations both halves use: separator split, join, replace-all, trim, template interpolation and decimal rendering. `Wrappers` holds `Option` and `Result`.

The model takes the source's own form:

- **Imperative where the source mutates.** The remark plugin's replacement loop is a `for` loop over the replacement table. Its splice edits a `Parent` object's `children`. `send_email` fills a `MultipartMessage` object header by header and part by part. The async contact handler appends to a `BackgroundTasks` object. The item endpoints update an `ItemStore` object: a map of rows plus the table order. `update_item` assigns the sent fields one by one in a loop.
- **Functional where the source computes.** The schemas, the index pipeline, the email bodies and the CORS parser are functions with lemmas.

Inputs the code gets from outside become parameters:

- **Email transport.** A function from the SMTP connection settings and the message to `Delivered` or `Raised(reason)`.
- **Clock.** A `now` timestamp.
- **Database ids and times.** Inputs to `CreateItem`.
- **`EmailStr` syntax check.** A function from the address to the normalised address or `None`.
- **Unexpected exception in a contact handler.** A `fault` text.

Logging is returned as a list of events.

## Model

| member | source | states |
|---|---|---|
| RemarkSubstitutions.SubstituteSymbols | blog/lib/remarkSubstitutions.ts:17-20 | the loop leaves the value with every table entry's replacement applied, first entry first |
| RemarkSubstitutions.SubstituteIsThreePasses | blog/lib/remarkSubstitutions.ts:10-20 | substitution is replace-all of `->` by →, then `<-` by ←, then `<3` by ♥ |
| Strings.JoinSplitIsReplace | blog/lib/remarkSubstitutions.ts:19 | `split(key).join(sym)` replaces every non-overlapping occurrence of the key, left to right |
| RemarkSubstitutions.SubstituteLeavesNoKeys | blog/lib/remarkSubstitutions.ts:17-20 | the substituted value contains none of `->`, `<-`, `<3` |
| RemarkSubstitutions.ReplaceRemovesKey | blog/lib/remarkSubstitutions.ts:19 | replacing a two-character key by a glyph that is neither of its characters leaves no occurrence of the key |
| RemarkSubstitutions.ReplaceKeepsAbsent | blog/lib/remarkSubstitutions.ts:18-20 | a later pass creates none of the keys an earlier pass removed |
| RemarkSubstitutions.SplitSpans | blog/lib/remarkSubstitutions.ts:23 | the capturing split yields an odd number of parts |
| RemarkSubstitutions.SplitSpansConcat | blog/lib/remarkSubstitutions.ts:23 | the parts, concatenated, are the substituted value |
| RemarkSubstitutions.SplitSpansAlternate | blog/lib/remarkSubstitutions.ts:23-31 | every odd part is a shortest `::x::` span with no line terminator in `x`; no even part matches the anchored `^::(.*?)::$` |
| RemarkSubstitutions.EvenPartsHoldNoSpan | blog/lib/remarkSubstitutions.ts:23 | no even (text) part contains a `::…::` match at any position, so the split leaves no span inside a text part |
| RemarkSubstitutions.CloseFromIsShortest | blog/lib/remarkSubstitutions.ts:23 | the lazy match closes at the first `::` and crosses no line terminator |
| RemarkSubstitutions.SpanIsFound | blog/lib/remarkSubstitutions.ts:31 | whatever the anchored pattern accepts, the split finds as a span at its start |
| RemarkSubstitutions.SinglePartIffNoSpan | blog/lib/remarkSubstitutions.ts:23-27 | the split has exactly one part iff no span occurs anywhere, and that part is the whole value |
| RemarkSubstitutions.PartNodesAlternate | blog/lib/remarkSubstitutions.ts:30-42 | span parts become `Kbd` elements whose single text child is the trimmed inner text; every other part (empty ones too) becomes a text node of that part |
| RemarkSubstitutions.Splice | blog/lib/remarkSubstitutions.ts:44 | `splice(index, 1, ...xs)`: the prefix is kept, `xs` follows, then the old suffix |
| RemarkSubstitutions.TransformedChildrenShape | blog/lib/remarkSubstitutions.ts:23-44 | without a span only the node's value changes; with one, the node is replaced by the part nodes in order, the siblings keep their order and the count grows by parts − 1 |
| RemarkSubstitutions.Parent.VisitText | blog/lib/remarkSubstitutions.ts:17-44 | the visitor leaves the parent's children as the transformation prescribes |
| Strings.TrimIsStretch | blog/lib/remarkSubstitutions.ts:37 | the trimmed text is a contiguous stretch of the input, and everything before and after that stretch is white space |
| Strings.LeadingAreSpace | blog/lib/remarkSubstitutions.ts:37 | everything trimmed off the front is white space |
| Strings.TrailingAreSpace | blog/lib/remarkSubstitutions.ts:37 | everything trimmed off the end is white space |
| Strings.Trim | blog/lib/remarkSubstitutions.ts:37 | the trimmed text neither starts nor ends with white space |
| BlogIndex.Slug | blog/pages/index.tsx:47 | the slug is a prefix of the file name; it equals it iff the name ends in neither `.md` nor `.mdx`, and otherwise differs by exactly one of them |
| BlogIndex.SlugRemovesExtension | blog/pages/index.tsx:47 | removing the extension from `name.md` or `name.mdx` gives `name` |
| BlogIndex.Normalize | blog/pages/index.tsx:51-64 | title is the front-matter title when truthy, else the slug; cover falls back to null; `pinned`, `work`, `draft` are the truthiness of their values; tags as `Tags` computes them |
| BlogIndex.TitleFallsBackOnSlug | blog/pages/index.tsx:53 | a title is falsy only when it fell back on an empty slug |
| BlogIndex.NormalizeAll | blog/pages/index.tsx:46-66 | one post per file, in file order |
| BlogIndex.Tags | blog/pages/index.tsx:59-63 | a string becomes its words, an array passes unchanged, anything else gives no tags |
| BlogIndex.TagWordsShape | blog/pages/index.tsx:60 | a blank string gives `[""]`; otherwise the words are non-empty, hold no white space, and together are the string without its white space |
| BlogIndex.TagWordsOfJoin | blog/pages/index.tsx:60 | non-empty words without white space, joined by single spaces, come back from the tag split as exactly those words, so the words of such a string break exactly at its spaces |
| BlogIndex.RunsOfJoin | blog/pages/index.tsx:60 | the `/\s+/` split of such a space-joined string is the list of words |
| BlogIndex.RunsConcat | blog/pages/index.tsx:60 | the pieces of the `/\s+/` split, concatenated, are the input without white space |
| BlogIndex.RunsOfTrimmed | blog/pages/index.tsx:60 | a trimmed value splits into `[""]` iff it is empty, otherwise into non-empty words |
| BlogIndex.Where | blog/pages/index.tsx:69 | `filter` keeps exactly the accepted posts and adds none: each accepted post as often as in the input, each refused one not at all |
| BlogIndex.WhereAppend | blog/pages/index.tsx:69 | filtering two lists joined is filtering each and joining, so the kept posts stay in input order |
| BlogIndex.WhereSingle | blog/pages/index.tsx:69 | a single post is kept iff the predicate accepts it |
| BlogIndex.LexCompareAntisymmetric | blog/pages/index.tsx:70 | the date comparison is antisymmetric and is zero only for equal strings |
| BlogIndex.LexCompareTransitive | blog/pages/index.tsx:70 | the date comparison is transitive |
| BlogIndex.CompareMeaning | blog/pages/index.tsx:70 | the comparator puts unpinned before pinned, compares dates descending otherwise, and is zero only for equal pinned status and date |
| BlogIndex.CompareTransitive | blog/pages/index.tsx:70 | the comparator is transitive, so the sort is well defined |
| BlogIndex.InsertSorted | blog/pages/index.tsx:70 | inserting into a sorted list keeps it sorted |
| BlogIndex.InsertWithKey | blog/pages/index.tsx:70 | an inserted post ties with equal-key posts in input order |
| BlogIndex.SortPosts | blog/pages/index.tsx:70 | the stable sort's result is sorted, a permutation of its input, and keeps the input order among posts the comparator cannot tell apart |
| BlogIndex.SortedOrder | blog/pages/index.tsx:70 | in sorted posts, unpinned precede pinned; within equal pinned status dates do not increase, and `''` comes last |
| BlogIndex.VisiblePostsAreNonDrafts | blog/pages/index.tsx:68-70 | the visible posts are a permutation of the non-draft posts, and sorted |
| BlogIndex.WhereKeepsSorted | blog/pages/index.tsx:144 | a section of a sorted list is sorted |
| BlogIndex.SectionsCover | blog/pages/index.tsx:144-215 | pinned, work, and neither-pinned-nor-work are the three sections; every post is in one, a pinned work post in two, and each keeps the sorted order |
| BlogIndex.SectionsByDate | blog/pages/index.tsx:144-215 | within the pinned and the previous-articles section dates never increase |
| BlogIndex.ColorClasses | blog/pages/index.tsx:97 | a listed tag gets its colour classes, any other tag the gray fallback |
| BlogIndex.ConstructorTagIsNotGray | blog/pages/index.tsx:97 | as written, the tag `constructor` gets a function's text instead of the gray fallback |
| BlogIndex.InteractionClasses | blog/pages/index.tsx:99-106 | highlighted iff this tag is hovered, dimmed iff another tag is, hoverable iff none is |
| BlogIndex.TagClassNameAsWrittenDiffers | blog/pages/index.tsx:92-108 | the page's class string equals the intended one for every tag that is not an inherited member name, and differs from it for every inherited member name |
| BlogIndex.InheritedIsNotGray | blog/pages/index.tsx:97 | no inherited member name is a listed tag; the as-written lookup gives it the member's text, never the gray fallback |
| BlogIndex.TagClassNameRevealsHover | blog/pages/index.tsx:92-108 | for a fixed tag and size, the class string determines whether this tag, another one, or none is hovered |
| Config.DefaultSettingsValues | api/app/core/config.py:10-44 | two localhost CORS origins, SMTP port 587 with TLS, empty sender and recipient, the app name |
| Config.ParseCorsOrigins | api/app/core/config.py:26-30 | a list passes unchanged; a string gives one stripped entry per comma-separated piece, commas + 1 of them |
| Config.OriginsAreStrippedPieces | api/app/core/config.py:29 | no entry holds a comma or starts or ends with white space |
| Config.ParseJoinedOrigins | api/app/core/config.py:29 | joining clean origins with commas and parsing gives them back |
| Config.EmptyPiecesKept | api/app/core/config.py:29 | `a,,b` gives three entries, the middle one empty |
| Strings.SplitCount | api/app/core/config.py:29 | splitting on one character gives one more piece than there are occurrences of it |
| Validation.CheckRequired | api/app/schemas/contact.py:7 | a required string is accepted iff present with length in bounds; otherwise the error says missing, too short or too long |
| Validation.CheckOptional | api/app/schemas/contact.py:10 | a defaulted string takes the default when not sent, is refused as not nullable when sent as null, and otherwise is accepted iff no longer than the bound |
| ContactSchema.CheckEmail | api/app/schemas/contact.py:8 | the email is accepted iff present and accepted by the address check, and then is the checked address |
| ContactSchema.ValidateContactForm | api/app/schemas/contact.py:5-10 | accepted iff no field is refused, then carrying the sent values with a missing message defaulting to `""` and a null message refused; otherwise the errors name exactly the refused fields |
| ContactSchema.MissingEmailOrPhoneRefused | api/tests/test_contact.py:53-62 | a form without email or without phone is refused |
| ContactSchema.RefusedAddressRefusesForm | api/tests/test_contact.py:40-50 | an address the check refuses makes the form refused on its email field |
| ContactSchema.ShortPhoneRefused | api/app/schemas/contact.py:9 | the phone `555-1234` (8 characters) is refused |
| ContactSchema.MessageDefaultsToEmpty | api/app/schemas/contact.py:10 | an accepted form without a message carries `""` |
| ContactSchema.NullMessageRefused | api/app/schemas/contact.py:10 | a form whose message is sent as null is refused on its message field |
| Email.ComposeMessage | api/app/core/email.py:27-39 | From, To and Subject are as given; a plain part comes first iff the text is truthy; the HTML part is always there and last |
| Email.MultipartMessage.SetHeader | api/app/core/email.py:28-30 | a header assignment adds that header after the ones set and leaves the parts |
| Email.MultipartMessage.Attach | api/app/core/email.py:35-39 | `attach` appends the part and leaves the headers |
| Email.SendEmail | api/app/core/email.py:25-56 | the message is the composed one; the result is true iff the transport delivered it; an exception is logged as an error and becomes false |
| Email.NotificationSubjectCarriesName | api/app/core/email.py:69 | the subject is the fixed prefix followed by the name, unescaped |
| Email.NotificationHtmlShowsFields | api/app/core/email.py:71-90 | the HTML body shows name, email and phone, and the message block when the message is non-empty |
| Email.NotificationTextShowsFields | api/app/core/email.py:92-102 | the plain-text body shows name, email and phone, and `Message: ` with the message when it is non-empty |
| Email.NotificationHtmlMessageBlock | api/app/core/email.py:80 | the HTML body differs from the one for an empty message iff the message is non-empty |
| Email.NotificationTextMessageBlock | api/app/core/email.py:98 | the plain-text body differs from the one for an empty message iff the message is non-empty |
| Email.NotificationAddressing | api/app/core/email.py:104-109 | the notification goes from the sender to the configured recipient with both parts, plain text first |
| Email.SendContactNotification | api/app/core/email.py:59-109 | sends the notification and returns exactly what the mailer returned |
| Email.ConfirmationAddressing | api/app/core/email.py:120-161 | the confirmation goes to the submitter under the fixed subject with both parts, each greeting by name |
| Email.SendConfirmationEmail | api/app/core/email.py:112-162 | sends the confirmation and returns exactly what the mailer returned |
| ContactRouter.BackgroundTasks.AddTask | api/app/routers/contact.py:32-44 | a task is queued after those already queued |
| ContactRouter.QueuedTasks | api/app/routers/contact.py:32-44 | two tasks, notification then confirmation, carrying the form's fields unchanged |
| ContactRouter.Thanks | api/app/routers/contact.py:46-50 | the reply is a success |
| ContactRouter.SubmitContactForm | api/app/routers/contact.py:25-57 | on success exactly the two tasks are queued and the thank-you is returned, with nothing sent; on an exception nothing is queued and the reply is the 500 with the fixed detail |
| ContactRouter.SendWarningsIff | api/app/routers/contact.py:88-92 | a warning is logged for a send iff that send failed |
| ContactRouter.SendBoth | api/app/routers/contact.py:75-92 | the notification is sent and then the confirmation, each once; the log is the two send logs followed by the warnings |
| ContactRouter.SubmitContactFormSync | api/app/routers/contact.py:68-106 | whatever the sends return, the reply is the thank-you after both messages were sent in order; on an exception nothing is sent and the reply is the 500 |
| ContactRouter.QueuedTasksSendSyncMessages | api/app/routers/contact.py:32-86 | the queued tasks, when run, send exactly the synchronous handler's messages in the same order |
| ItemSchema.CheckAtLeast | api/app/schemas/item.py:10 | a required integer is accepted iff present and at least the bound |
| ItemSchema.CheckDefaulted | api/app/schemas/item.py:11 | a defaulted field that is not nullable takes the default when not sent and the sent value when sent, and is refused when sent as null |
| ItemSchema.CheckOptionalText | api/app/schemas/item.py:9 | a nullable text is accepted iff absent or within the bound |
| ItemSchema.ValidateItemCreate | api/app/schemas/item.py:6-16 | accepted iff no field is refused, then valid and carrying the sent values with `is_available` defaulting to true; a null `is_available` is refused; the errors name exactly the refused fields |
| ItemSchema.AssignSentFields | api/app/routers/items.py:51-52 | assigning the sent fields one by one overwrites exactly the sent fields, each with its value or, when sent as null, with null |
| ItemSchema.PatchedKeepsValid | api/app/schemas/item.py:19-24 | an update that passes `ItemUpdate` validation keeps valid fields valid iff it sends no null for name, price or availability |
| ItemSchema.PatchedIdempotent | api/app/routers/items.py:51-52 | applying an update twice is applying it once |
| ItemSchema.EmptyUpdateChangesNothing | api/app/routers/items.py:51-52 | an update that sends nothing changes nothing |
| ItemsRouter.NotFoundNamesId | api/app/routers/items.py:25 | distinct ids get distinct 404 details |
| Strings.NatToStringRoundTrip | api/app/routers/items.py:25 | reading the decimal digits back gives the number |
| ItemsRouter.IntToStringInjective | api/app/routers/items.py:25 | an integer's decimal rendering determines it |
| ItemsRouter.Page | api/app/routers/items.py:14 | the rows from the offset on, at most `limit` of them, all of them for a negative limit |
| ItemsRouter.PagesConcatenate | api/app/routers/items.py:14 | two consecutive pages make the page spanning both |
| ItemsRouter.DefaultPageIsWhole | api/app/routers/items.py:12 | with skip 0 and limit 100 a table of at most 100 rows is listed whole |
| ItemsRouter.Without | api/app/routers/items.py:69 | the ids without the deleted one, still distinct |
| ItemsRouter.WithoutAppend | api/app/routers/items.py:69 | removing an id from two lists joined removes it from each, in that order |
| ItemsRouter.WithoutAt | api/app/routers/items.py:69 | in a list without repeats, removing the id at a position leaves the ids before it followed by the ids after it |
| ItemsRouter.UpdatedRows | api/app/routers/items.py:51-52 | only that row's fields change, to the patched fields, a sent null included |
| ItemsRouter.UpdateTwiceIsOnce | api/app/routers/items.py:51-52 | the same update twice leaves the table as once |
| ItemsRouter.UpdateKeepsRowsValid | api/app/routers/items.py:51-52 | an update that passes validation keeps every row valid iff it sends no null for name, price or availability |
| ItemsRouter.ItemStore.GetItems | api/app/routers/items.py:11-15 | the page of the table at `skip`, at most `limit` long, each a stored row |
| ItemsRouter.ItemStore.GetItem | api/app/routers/items.py:18-27 | the row with that id, or the 404 naming the id |
| ItemsRouter.ItemStore.CreateItem | api/app/routers/items.py:30-37 | exactly one row is added, with the sent fields, after the existing ones; its id exceeds every stored id |
| ItemsRouter.ItemStore.UpdateItem | api/app/routers/items.py:40-56 | for an absent id the 404 and no change; otherwise only that row changes, to the patched fields, a sent null included |
| ItemsRouter.ItemStore.DeleteItem | api/app/routers/items.py:59-71 | exactly that id is removed, the other ids keeping their order; an absent id is the 404 with no change |

## Left out

- The tree walk of `unist-util-visit` is not modelled, including whether freshly spliced nodes are visited again. The model covers the per-node visitor and the splice.
- The regular expressions are given their JavaScript meaning by hand: `.` stops at the four JavaScript line terminators, and `\s` and `trim()` use JavaScript white space. No regex engine is modelled.
- Front-matter numbers are integers only. YAML floats such as `0.5`, `0.0`, `.nan` and `.inf` are not represented, although JavaScript treats `0.0` and `NaN` as falsy.
- BlogIndex.TagClassName: builds on the corrected lookup `ColorClasses`, as the rest of the model does. The page as written is `TagClassNameAsWritten`, which differs from it exactly on inherited member names (`TagClassNameAsWrittenDiffers`).
- Reading the posts directory, gray-matter parsing and the `Date` to ISO conversion are left out: the model starts from file names with parsed front matter and the ISO date string or `''`.
- `localeCompare` is modelled as plain lexicographic comparison. It agrees with collation on fixed-format ISO dates and differs on other strings.
- JSX rendering, the React hover state wiring, blog/pages/_app.tsx, blog/pages/admin.tsx, blog/components/Kbd.tsx and blog/tailwind.config.js are left out: they are UI and styling.
- The SMTP transport (`aiosmtplib`), MIME encoding and the logging backend are left out. The transport is an oracle parameter and logs are event lists.
- When background tasks run, and request concurrency, are left out. The model keeps the queued task list.
- The `EmailStr` syntax check is a parameter. Pydantic's error formatting is reduced to the names of the refused fields.
- A null `name`, `email` or `phone` in a contact form is not told apart from a missing one; both refuse the field. The message does tell them apart.
- In a create request a null `name`, `price` or `description` is not told apart from a missing one. Both refuse `name` and `price`, and both leave `description` null.
- ItemsRouter.ItemStore.UpdateItem: an update that sends null for `name`, `price` or `is_available` passes `ItemUpdate` and is assigned, and the model stores the null in the row. What happens next is not modelled: the database may refuse it at commit, or the `ItemResponse` model may refuse the reply. Which one depends on app/models/item.py, which is not part of this model. `PatchedKeepsValid` shows the row is then no longer valid.
- SQLAlchemy sessions, commit and refresh are left out. The table is a map plus the row order.
- The database supplies ids and creation times; here they are inputs to `CreateItem`. The id must exceed every stored id, as SQLite's next rowid does. The listing query has no ORDER BY, so the model lists rows by rowid, which is the order in which `CreateItem` appends them.
- ItemsRouter.ItemStore.UpdateItem: `updated_at` is left unchanged, because app/models/item.py is not part of this model.
- Pagination follows SQLite, the default `DATABASE_URL`: a negative offset reads as zero and a negative limit as no limit. Other databases are not modelled.
- Environment and `.env` loading are left out, and so is app wiring in api/app/main.py. The model shows the defaults and the validator.
- `datetime.utcnow()` is the `now` parameter.
- An unexpected exception inside a contact handler is modelled as arising at the submission log call, before anything else happens. Exceptions at later points are not modelled.
- `Settings` keeps every field of the settings class; nothing about `SECRET_KEY`, `ALGORITHM` or token expiry is proved, because no core code reads them.
- HTML escaping is not added: the bodies interpolate user fields verbatim, as the code does.

## Notes on the source

- The contact tests post the phones `555-1234` and `555-5678` (api/tests/test_contact.py:14, api/tests/test_contact.py:32). Both are 8 characters, but the schema demands 10 to 20 (api/app/schemas/contact.py:9). The model follows the schema: `ContactSchema.ShortPhoneRefused` shows such a form is refused.
- api/app/main.py:22-23 mounts the health and items routers but not the contact router, so the contact URLs the tests post to are not served as written. The model covers the handlers themselves, not routing.
- The index comparator, `(b.pinned ? -1 : 0) - (a.pinned ? -1 : 0)`, is negative when `b` is pinned and `a` is not. Unpinned posts therefore sort before pinned ones. The model follows the code (`BlogIndex.CompareMeaning`, `BlogIndex.SortedOrder`).

- The `CORS_ORIGINS` validator splits a string at commas (api/app/core/config.py:28-29). The settings library JSON-decodes an environment value of a `List[str]` field before that validator runs, so a plain `a,b` in the environment is rejected before it reaches the split. The string case is reached by a JSON string value such as `"a,b"`, or by a string passed directly to `Settings`. The model covers the validator itself (`Config.ParseCorsOrigins`), not the environment decoding.

## Findings

| source | as written | input that shows it | evidently intended | confidence | as-written member | corrected member |
|---|---|---|---|---|---|---|
| blog/pages/index.tsx:97 | `tagColors[tag]` on a plain object literal also finds members inherited from `Object.prototype` | the tag `constructor` gets `function Object() { [native code] }` as colour classes | tags not listed in the table get the gray fallback | medium, not executed | BlogIndex.TagClassNameAsWrittenDiffers | BlogIndex.ColorClasses |
