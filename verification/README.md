# Nova Exams site: a Dafny model

Nova Exams is a Next.js site for an exam-preparation centre. Visitors can:
- read blog posts;
- watch mock-test videos;
- book an exam.

A single administrator logs in through a client-side form and manages posts and videos on a dashboard. The site keeps bookings, blog posts and videos in a database behind three API routes.

This project models that logic as immutable datatypes and pure transition functions:

- **The three API routes.**
  - Bookings, blogs and videos each have `POST` (validate, then create) and `GET` (list newest first).
  - Blogs and videos also have `DELETE /[id]`, in `src/app/api/blogs/[id]/route.ts` and `src/app/api/videos/[id]/route.ts` (lines 4-19 of each). The table below cites the admin page's requests to these two handlers. Their ok reply is the JSON body `{ success: true }`; the model keeps its one field, `Data(true)`.
  - The blogs and videos routes share their `GET` and `DELETE` handlers (module `Routes`); each route passes its own error message.
  - Each handler maps a store and a parsed request body to a reply (status and body) and a new store.
  - A table is a sequence of rows. Each row carries an id and a creation time stamped by the store.
- **JavaScript semantics the routes rely on.**
  - Truthiness of the values in a JSON body.
  - A missing key reads as `undefined`.
  - The ORM refuses a value of the wrong type, which ends in the handler's `catch`.
- **The blog page.**
  - The word-limited card excerpt.
  - The detail modal's open/selected pair, including the Escape key.
- **The mock-tests page.**
  - YouTube embed-URL extraction. The route's regular expression is implemented with ECMAScript's leftmost-first, alternative-by-alternative backtracking order.
  - A relational description of what the pattern matches; the matcher is proved sound and complete against it.
  - The raw "Watch on YouTube" link.
- **The login flag in browser storage** (a `map<string, string>`).
  - The login form writes it.
  - The admin dashboard checks it on mount.
  - The dashboard's logout removes both keys; the footer's logout removes only the flag.
  - The footer shows a Logout button or a Login link.
- **The admin dashboard.**
  - Loading the three lists.
  - The blog and video forms, which post to the route models.
  - The forms are cleared only on an ok reply.
  - Confirm-gated deletes.
  - The three counters.
- **The booking page.** Exam, date and time selection, and the summary box.
- **The hero carousel.** Its index, the timer, the dots and the single visible slide.
- **The home page.**
  - Testimonial initials, with a second, independent definition proved equal.
  - Star rows.
  - The marquee that shows its children twice.

Strings are sequences of Dafny `char`s, which are Unicode scalar values, while JavaScript strings are sequences of UTF-16 code units; the two agree on text without characters outside the Basic Multilingual Plane (see "Left out"). Dates are integer time values. The current moment is a parameter `now`, and so is the date string a form is reset to.

## Model

| member | source | states |
|---|---|---|
| BookingsApi.Post | src/app/api/bookings/route.ts:5-43 | 400 "Missing required fields" exactly when a parsed body has a falsy examTypeId, timeSlotId, date, name, email or phone; every other failure is 500 "Failed to create booking"; a failure writes nothing; success exactly when the body is complete, the store is up, the values are well-typed and both references resolve; a success appends exactly one row with the supplied fields and returns it joined with its exam type and time slot |
| BookingsApi.BookingData | src/app/api/bookings/route.ts:19-28 | the create's data carries each supplied field, the date through `new Date`, and is refused exactly when a field has the wrong type or the date is invalid |
| BookingsApi.NotesValue | src/app/api/bookings/route.ts:27 | notes that are absent or null store nothing, a string is stored as given, any other value is refused |
| BookingsApi.MissingRequired | src/app/api/bookings/route.ts:12 | a parsed body is refused with 400 exactly when one of examTypeId, timeSlotId, date, name, email or phone is falsy |
| Tables.FindBy | src/app/api/bookings/route.ts:29-32 | the lookup behind each join (and behind the booking summary's `find`) returns the first element with the requested key, and finds none exactly when no element has it |
| BookingsApi.Get | src/app/api/bookings/route.ts:45-64 | an unreachable store gives 500 "Failed to fetch bookings"; on a consistent store the listing is ok, holds exactly the stored rows (as a multiset), newest first, each joined with its exam type and slot |
| BookingsApi.JoinAll | src/app/api/bookings/route.ts:47-51 | the listing joins every row with its exam type and time slot in order, and fails exactly when some row has a reference that does not resolve |
| BookingsApi.PostPreservesValid | src/app/api/bookings/route.ts:19-33 | after any POST every booking still resolves its exam type and slot and ids stay unique |
| BookingsApi.StoredRowIsListed | src/app/api/bookings/route.ts:45-57 | on a consistent store every stored booking appears in the listing, joined with its exam type and slot |
| BookingsApi.CreatedBookingIsListed | src/app/api/bookings/route.ts:19-57 | the booking a POST returns appears, unchanged and joined, in the next GET |
| BookingsApi.NoUniquenessCheck | src/app/api/bookings/route.ts:12-33 | whether a POST succeeds depends on the store only through its exam types and slots, never on existing bookings |
| BookingsApi.DuplicateBookingsAccepted | src/app/api/bookings/route.ts:12-33 | the same request twice gives two stored bookings with equal data |
| BookingsApi.PastDatesAccepted | src/app/api/bookings/route.ts:12-23 | the outcome does not depend on the current time, so past dates are accepted |
| BookingsApi.NotesOptional | src/app/api/bookings/route.ts:9-27 | dropping notes from a successful request still succeeds and stores the same booking without notes |
| Tables.Insert | src/app/api/blogs/route.ts:36-42 | a create appends exactly one row holding the data and stamped with the current time, under a fresh id |
| Tables.Delete | src/app/admin/page.tsx:165-167 | a delete fails exactly when no row has the id; otherwise it removes one row with that id and keeps the others in order, and with unique ids the id is gone |
| Tables.NewestFirst | src/app/api/blogs/route.ts:7-11 | the listing is a permutation of the rows in non-increasing creation time |
| Tables.ListingIsOrderedPermutation | src/app/api/videos/route.ts:7-11 | every row is at least as new as every later row, the multiset of rows is preserved and so is the count |
| JsValues.TruthyString | src/app/api/blogs/route.ts:29 | a string passes the required-field check exactly when it is not empty |
| JsValues.Truthy | src/app/api/blogs/route.ts:29 | the `!value` test: undefined, null, false, 0 and the empty string are falsy, every other value (objects and arrays included) truthy |
| BlogsApi.Post | src/app/api/blogs/route.ts:22-52 | 400 "All fields are required" exactly when title, description or date is falsy; other failures 500 "Failed to create blog"; failures write nothing; a success appends exactly one post with the three given strings |
| BlogsApi.BlogData | src/app/api/blogs/route.ts:36-42 | the stored post is exactly the title, description and date strings sent; a non-string value is refused |
| BlogsApi.MissingRequired | src/app/api/blogs/route.ts:29 | a parsed body is refused with 400 exactly when title, description or date is falsy |
| Routes.List | src/app/api/blogs/route.ts:5-20 | the shared GET handler: ok exactly when the store is reachable, and then a permutation of all rows, newest first; otherwise 500 with the route's message |
| Routes.Remove | src/app/admin/page.tsx:164-170 | the shared DELETE handler: ok exactly when the store is reachable and has the id, and then a row with that id is removed, the others kept in order; otherwise 500 with the route's message and an unchanged store |
| BlogsApi.Get | src/app/api/blogs/route.ts:5-20 | ok exactly when the store is reachable, with all posts newest first; otherwise 500 "Failed to fetch blogs" |
| BlogsApi.Delete | src/app/admin/page.tsx:165-170 | ok exactly when the store is reachable and has the id, and then that post is removed and the others kept in order; otherwise 500 "Failed to delete blog" and nothing changes |
| BlogsApi.ExtraFieldsIgnored | src/app/api/blogs/route.ts:26-41 | two bodies that agree on title, description and date get the same reply and the same store |
| BlogsApi.CreatedBlogIsListed | src/app/api/blogs/route.ts:5-44 | a created post appears in the next listing |
| VideosApi.Post | src/app/api/videos/route.ts:22-52 | as for blogs, with title, youtubeUrl and description and the video messages |
| VideosApi.VideoData | src/app/api/videos/route.ts:36-42 | the stored video is exactly the three strings sent |
| VideosApi.MissingRequired | src/app/api/videos/route.ts:29 | a parsed body is refused with 400 exactly when title, youtubeUrl or description is falsy |
| VideosApi.Get | src/app/api/videos/route.ts:5-20 | ok exactly when reachable, all videos newest first; otherwise 500 "Failed to fetch videos" |
| VideosApi.Delete | src/app/admin/page.tsx:214-219 | ok exactly when reachable and the id exists, and then that video is removed and the others kept in order; otherwise 500 "Failed to delete video" |
| VideosApi.UrlStoredVerbatim | src/app/api/videos/route.ts:26-44 | the URL is stored exactly as sent, without extracting an id |
| Text.Split | src/app/blog-and-resources/page.tsx:64 | splitting on one character gives at least one piece and no piece contains the separator |
| Text.JoinSplit | src/app/blog-and-resources/page.tsx:64-66 | joining the pieces with the separator gives back the text |
| Text.SplitJoin | src/app/blog-and-resources/page.tsx:64-66 | splitting a join of separator-free pieces gives back the pieces |
| Text.SplitCount | src/app/blog-and-resources/page.tsx:64 | there is one more piece than there are separators |
| BlogPage.TruncateToWords | src/app/blog-and-resources/page.tsx:63-67 | `truncateToWords`: split on single spaces, whole when the pieces fit the limit, else the first pieces joined plus "..."; its properties are TruncateCases, TruncatedIsPrefix and TruncateIdempotent |
| BlogPage.CardExcerpt | src/app/blog-and-resources/page.tsx:224 | a card shows the description cut at ten pieces |
| BlogPage.TruncateCases | src/app/blog-and-resources/page.tsx:63-67 | a description of at most n pieces is shown whole, a longer one as its first n pieces joined by spaces plus "..."; a negative n, as `slice` reads it, drops that many pieces from the end, and always truncates |
| BlogPage.TruncatedIsPrefix | src/app/blog-and-resources/page.tsx:64-66 | the excerpt is the description or a prefix of it followed by "..." |
| BlogPage.TruncateIdempotent | src/app/blog-and-resources/page.tsx:63-67 | for a non-negative limit (the card uses 10), truncating an excerpt again with the same limit changes nothing; a negative limit is not covered, since there re-truncation can change the text (NegativeLimitCutsAgain) |
| BlogPage.NegativeLimitCutsAgain | src/app/blog-and-resources/page.tsx:63-67 | with a negative limit `slice` counts from the end, so truncating twice can cut again: "a b" at -1 gives "a...", which at -1 gives "..." |
| BlogPage.EmptyPiecesCount | src/app/blog-and-resources/page.tsx:64-65 | consecutive spaces give empty pieces that count toward the limit: "a  b" cut at 2 is "a ..." |
| BlogPage.OpenModal | src/app/blog-and-resources/page.tsx:69-74 | opening shows the chosen post |
| BlogPage.CloseModal | src/app/blog-and-resources/page.tsx:76-81 | closing clears both the flag and the selection |
| BlogPage.PressEscape | src/app/blog-and-resources/page.tsx:84-96 | Escape closes an open modal and does nothing otherwise |
| BlogPage.TransitionsKeepConsistent | src/app/blog-and-resources/page.tsx:69-81 | every transition keeps "open" and "selected" together |
| YouTube.SegmentsMatch | src/app/mock-tests/page.tsx:62 | the `[^/]+/.+/` alternative matches exactly when its shape is present, and because `.+` is greedy its capture is the last one with that shape: no capture with the shape lies after it |
| YouTube.PathMatch | src/app/mock-tests/page.tsx:62 | the `v/`, `e/`, `embed/` alternative matches exactly its shape |
| YouTube.QueryMatch | src/app/mock-tests/page.tsx:62 | the `.*[?&]v=` alternative matches exactly when its shape is present, and because `.*` is greedy its capture follows the last `?v=`/`&v=` with an id: no capture with the shape lies after it |
| YouTube.HostMatch | src/app/mock-tests/page.tsx:62 | the `youtube\.com\/(...)` alternative from a position matches exactly when one of its three shapes is present |
| YouTube.MatchAt | src/app/mock-tests/page.tsx:62 | a match found at a start position has the pattern's shape, and no shape exists when none is found; AlternativesInOrder states which capture it picks |
| YouTube.AlternativesInOrder | src/app/mock-tests/page.tsx:62 | the alternatives are tried in the pattern's order: whenever the segments shape fits it wins, with its last capture; a `v/`, `embed/` or `e/` path is used only when no segments shape fits; the query shape only when neither fits, again with its last capture; "youtu.be/" followed by an id captures that id |
| YouTube.PathShapeUnique | src/app/mock-tests/page.tsx:62 | the `v/`, `embed/` and `e/` prefixes exclude one another, so a path shape determines the capture |
| YouTube.FirstMatch | src/app/mock-tests/page.tsx:62 | the match reported is the leftmost one |
| YouTube.Match | src/app/mock-tests/page.tsx:62-63 | a reported capture is 11 id characters at a position the pattern matches, and it is the capture `MatchAt` picks at a start before which no position matches at all (the leftmost start); no position matches when none is reported |
| YouTube.HasYouTubeHost | src/app/mock-tests/page.tsx:57 | a value counts as a YouTube URL exactly when it contains "youtube.com" or "youtu.be" anywhere |
| YouTube.EmbedUrl | src/app/mock-tests/page.tsx:55-64 | a value naming neither host becomes the embed URL of itself; a matched URL becomes the embed URL of its 11-character capture; an unmatched URL is returned unchanged |
| YouTube.WatchUrl | src/app/mock-tests/page.tsx:229 | the watch link is the watch prefix followed by the stored value |
| YouTube.CaptureFollowsSlashOrV | src/app/mock-tests/page.tsx:62 | every capture follows a '/' or "v=" |
| YouTube.LeftmostIs | src/app/mock-tests/page.tsx:62 | a match with none before it is the one reported |
| YouTube.IdHasNoSeparators | src/app/mock-tests/page.tsx:62 | a captured id holds no '/', '?', '&' or line terminator |
| YouTube.ShortLink | src/app/mock-tests/page.tsx:62-63 | "https://youtu.be/ID…" gives the embed URL of ID |
| YouTube.EmbedLink | src/app/mock-tests/page.tsx:62-63 | ".../embed/ID" gives the embed URL of ID |
| YouTube.VLink | src/app/mock-tests/page.tsx:62-63 | ".../v/ID" gives the embed URL of ID |
| YouTube.QueryLink | src/app/mock-tests/page.tsx:62-63 | any youtube.com path without further slashes that ends in "?v=" or "&v=" before ID gives the embed URL of ID, whatever the path starts with (".../view?v=ID" and ".../embed?v=ID" included) |
| YouTube.EmbedQueryLink | src/app/mock-tests/page.tsx:62-63 | ".../embed?v=ID" gives the embed URL of ID: "embed" without a slash falls through to the query alternative |
| YouTube.WatchLink | src/app/mock-tests/page.tsx:62-63 | ".../watch?v=ID" gives the embed URL of ID |
| YouTube.WatchLinkAmpersand | src/app/mock-tests/page.tsx:62-63 | ".../watch?feature=share&v=ID" gives the embed URL of ID |
| YouTube.LaterQueryIdWins | src/app/mock-tests/page.tsx:62-63 | ".../watch?v=A&v=B" gives the embed URL of B, not A |
| YouTube.SegmentsBeforePath | src/app/mock-tests/page.tsx:62-63 | ".../v/A/B" gives the embed URL of B: the segments alternative is tried before `v/` and captures after the last slash |
| YouTube.WatchLinkIsNotExtracted | src/app/mock-tests/page.tsx:229 | the watch link uses the raw stored value, which agrees with the embed URL's tail only for a bare id |
| Auth.HandleSubmit | src/app/login/page.tsx:18-38 | success exactly on an exact match of both credentials; a success writes the flag "true" and the login time and keeps loading; a failure alerts, writes nothing and ends loading |
| Auth.Submit | src/app/login/page.tsx:56-89 | the form submits only when it is not loading and both required inputs are filled |
| Auth.NoSecondSubmitAfterSuccess | src/app/login/page.tsx:20-32 | after a successful submit the loading flag stays up, so a second submit does nothing |
| Auth.EditsAfterSubmit | src/app/login/page.tsx:59-80 | after a successful submit the disabled inputs ignore typing, so the checked credentials stay in the form; after a rejected one the typed values are kept and the inputs take edits again |
| Auth.CheckAuth | src/app/admin/page.tsx:80-95 | authenticated and fetching exactly when the flag reads "true", otherwise sent to the login page; checked either way |
| Auth.AdminLogout | src/app/admin/page.tsx:122-126 | removes the flag and the login time and keeps every other key |
| Auth.FooterLoggedIn | src/components/Footer.tsx:13-27 | the footer's status is exactly the admin page's check |
| Auth.FooterLogout | src/components/Footer.tsx:29-39 | removes only the flag, keeps the login time, and sets the status to false |
| Auth.FooterAuthLink | src/components/Footer.tsx:132-143 | a Logout button exactly when logged in, a Login link otherwise |
| Auth.LoginThenAdmin | src/app/login/page.tsx:22-32 | after a successful login the admin check passes and the footer offers logout; a failed login changes nothing the check reads |
| Auth.LogoutsDiffer | src/components/Footer.tsx:31 | after either logout the admin check fails; only the admin logout clears the login time |
| AdminPage.Initial | src/app/admin/page.tsx:49-77 | the page starts unchecked, loading, with both success modals hidden |
| AdminPage.FetchData | src/app/admin/page.tsx:98-119 | loading always ends; offline nothing else changes; a failing store leaves the error objects; a working store gives exactly its rows, newest first |
| AdminPage.Mount | src/app/admin/page.tsx:80-95 | the check always completes; data is fetched exactly when the flag is set |
| AdminPage.Render | src/app/admin/page.tsx:227-409 | "checking" before the check, the skeleton while loading, then either the dashboard, whose counters are the three lists' lengths, or, when any list holds an error object, no page at all because `map` on that object throws |
| AdminPage.CountersMatchStore | src/app/admin/page.tsx:326-362 | after a successful load the three counters are the numbers of stored bookings, posts and videos |
| AdminPage.UnreachableStoreCrashesDashboard | src/app/admin/page.tsx:107-113 | a logged-in administrator whose store is unreachable gets no dashboard: the error objects are stored unchecked and the render throws |
| AdminPage.OfflineDashboardIsEmpty | src/app/admin/page.tsx:114-118 | when the requests themselves fail the lists keep their empty arrays and the counters read zero |
| AdminPage.VisitorSeesOnlySkeleton | src/app/admin/page.tsx:80-95 | without the flag the visitor is redirected and nothing is fetched, so the skeleton stays |
| AdminPage.BlogRequest | src/app/admin/page.tsx:132-138 | the body sent carries the form's title, description and date as strings |
| AdminPage.SubmitBlog | src/app/admin/page.tsx:129-160 | nothing is sent while a required input is empty; on an ok reply the form is cleared to today's date, the success modal shows and the lists reload; on any other reply the page is unchanged |
| AdminPage.FilledBlogFormPublishes | src/app/admin/page.tsx:129-160 | a filled form on a working store stores exactly the form's post, clears the form and raises the counter by one |
| AdminPage.RejectedBlogKeepsForm | src/app/admin/page.tsx:140-156 | a rejected post leaves the form as typed and the store unchanged |
| AdminPage.VideoRequest | src/app/admin/page.tsx:181-187 | the body sent carries the form's title, URL and description |
| AdminPage.SubmitVideo | src/app/admin/page.tsx:178-209 | as for blogs: reset, modal and reload only on an ok reply |
| AdminPage.FilledVideoFormAdds | src/app/admin/page.tsx:178-209 | a filled video form on a working store is always stored, the form emptied and the counter raised by one |
| AdminPage.CloseSuccess | src/app/admin/page.tsx:676-693 | a close button hides its own success modal only |
| AdminPage.DeleteBlog | src/app/admin/page.tsx:162-175 | nothing is sent unless confirmed; an ok reply reloads the lists |
| AdminPage.DeleteVideo | src/app/admin/page.tsx:211-224 | nothing is sent unless confirmed; an ok reply reloads the lists |
| AdminPage.ConfirmedDeleteRemoves | src/app/admin/page.tsx:162-175 | a confirmed delete of a stored post removes it and lowers the counter by one; a cancelled one changes nothing |
| AdminPage.ConfirmedVideoDeleteRemoves | src/app/admin/page.tsx:211-224 | the same for videos |
| BookingPage.Init | src/app/booking/page.tsx:14-16 | the date starts at the current moment, exam and time unchosen |
| BookingPage.SelectExam | src/app/booking/page.tsx:71 | choosing an exam leaves date and time alone |
| BookingPage.SelectTime | src/app/booking/page.tsx:118 | choosing a slot leaves date and exam alone |
| BookingPage.OnSelectDate | src/app/booking/page.tsx:99 | a picked day becomes the date, a cleared pick falls back to now |
| BookingPage.DateDisabled | src/app/booking/page.tsx:102 | a calendar day is greyed out exactly when it is earlier than the current moment |
| BookingPage.PickedDateNotInPast | src/app/booking/page.tsx:96-103 | since earlier days are disabled, the selected date is never before the moment of choosing |
| BookingPage.FindListed | src/app/booking/page.tsx:18-23 | with distinct ids, looking up an entry's id finds that entry |
| BookingPage.SlotButtons | src/app/booking/page.tsx:114-123 | a slot button is highlighted exactly when it is the chosen time |
| BookingPage.SummaryShowsChosenExam | src/app/booking/page.tsx:218-237 | choosing any menu entry shows its name and fee |
| BookingPage.SummaryShowsChosenTime | src/app/booking/page.tsx:230 | clicking a slot puts it on the "Time:" line and leaves the exam and fee lines unchanged |
| BookingPage.UnknownExamShowsBlank | src/app/booking/page.tsx:218-237 | an exam id the menu does not list leaves the name and the fee blank |
| BookingPage.ExactlyOneSlotHighlighted | src/app/booking/page.tsx:114-123 | after clicking a slot exactly that button is highlighted |
| BookingPage.OpeningSummary | src/app/booking/page.tsx:14-16 | the opening summary reads "Not selected", "Not selected", "$0" |
| Hero.Tick | src/components/ui/Hero.tsx:28-34 | the timer moves to the next slide, wrapping after the last, and stays in range |
| Hero.Step | src/components/ui/Hero.tsx:120-130 | a dot click moves to that slide; every step keeps the index in range |
| Hero.Run | src/components/ui/Hero.tsx:5-34 | from the initial index 0, any run of ticks and clicks keeps the index in range |
| Hero.TicksAdvance | src/components/ui/Hero.tsx:30 | n ticks from slide i land on slide (i + n) mod 3 |
| Hero.EverySlideComesRound | src/components/ui/Hero.tsx:28-34 | three ticks return to the start, and every slide is reached within three ticks |
| Hero.Render | src/components/ui/Hero.tsx:41-130 | only the current slide is opaque and only its dot lit, and its description is shown |
| Hero.ExactlyOneSlideShown | src/components/ui/Hero.tsx:44-46 | after any run exactly one slide is opaque and exactly one dot active, the same one |
| HomePage.FirstChar | src/app/page.tsx:351 | an empty piece contributes nothing, any other piece its first character |
| HomePage.Initials | src/app/page.tsx:351 | the badge: the name split on single spaces, the first character of each piece, joined; InitialsAreWordStarts gives its meaning |
| HomePage.InitialsAreWordStarts | src/app/page.tsx:351 | the badge is exactly the characters that start a word, however many spaces separate them |
| HomePage.InitialsLength | src/app/page.tsx:351 | the badge has at most one letter more than the name has spaces |
| HomePage.TwoWordInitials | src/app/page.tsx:351 | a two-word name gives its two first letters |
| HomePage.TestimonialBadges | src/app/page.tsx:319-351 | the testimonials show "SJ" and "MC" |
| HomePage.Stars | src/app/page.tsx:184-186 | a star row of length n, each star keyed by its index; StarKeys states what that guarantees |
| HomePage.StarKeys | src/app/page.tsx:361-363 | a row of n stars meets React's unique-key requirement and its keys are exactly the numbers below n, one star per rating point |
| HomePage.Marquee | src/app/page.tsx:398-421 | the children twice, the second copy hidden from assistive technology |
| HomePage.MarqueeLoopsSeamlessly | src/app/page.tsx:402-417 | the track's second half repeats its first, so the shift by half the width loops seamlessly, and a screen reader hears each child once |

## Left out

- Database access, the network, timers, routing, `alert` and `confirm` are not modelled directly. Each appears as a parameter or an effect value: `reachable`, `online`, `confirmed`, `now`, redirect effects.
- The creation time and the id come from the store model. Ids are natural numbers rather than the ORM's generated strings.
- The booking table's default status column is not modelled: the database schema is not part of this model.
- JSON numbers are integers. Floating point, `NaN` and `-0` truthiness are not modelled.
- `new Date(...)` parsing is the parameter `toDate`. `toLocaleDateString` formatting is the date string a form receives.
- The regular expression is implemented for its own pattern only, not as a general ECMAScript engine. `includes` is plain substring search.
- The booking page's form has no submit handler and never calls the bookings route. Its exam ids are local strings, not database ids. The model therefore does not connect the page to the route.
- `fetchData` is not awaited by the handlers. The model runs it right after the reply, as one step.
- The footer's `storage` listener re-reads the flag with the same function as on mount. The listener itself is not modelled, and neither are the scroll lock and the CSS animation.
- The contact page, the data route, the seed script, the layout, the about page and the navbar are not part of this model.
- HomePage.FirstChar: `n[0]` in JavaScript is the first UTF-16 code unit, so for a word starting with a character outside the Basic Multilingual Plane (an emoji, say) the source shows a lone surrogate; the model's strings hold Unicode scalar values and it shows the whole character.
- YouTube.Match: the id class `[^"&?\/\s]{11}` counts UTF-16 code units in JavaScript, since the pattern has no `u` flag; the model counts Unicode scalar values, so a candidate id containing characters outside the Basic Multilingual Plane is matched differently.
- Routes.Remove: the ok reply's body `{ success: true }` is reduced to the value of its one field, `Data(true)`; the field name `success` is not modelled. BlogsApi.Delete and VideosApi.Delete inherit this.
- Auth.HandleSubmit: the administrator's account is a parameter rather than the literal pair in the login page, and the login time string is a parameter.
- Hero.Run: a dot click does not restart the interval, so the tick after a click can come early. Only the order of events is modelled, not their timing.
