# Portfolio site logic, modelled in Dafny

A model of the three pieces of logic in a personal portfolio site. The rest of the site is
presentation.

- **Blog list** (`Blog.tsx`). A fixed catalog of eight posts is narrowed by a category
  button and a case-insensitive search box. The result is cut into pages of six. A window
  of at most five page-number buttons is shown, with Previous/Next buttons. Each category
  button carries a badge with its post count.
- **Contact form** (`Contact.tsx`). Three fields are required: name, e-mail address and
  message. A fourth, the subject, is optional. The address is checked against
  `^[^\s@]+@[^\s@]+\.[^\s@]+$`. Submitting validates the form, then hands it to an e-mail
  relay. Success clears the form. Failure keeps the fields and shows a fixed message.
- **Header** (`Header.tsx`). It highlights the navigation link for the current path. It
  classifies the viewport width as mobile, tablet or desktop, and opens and closes the
  mobile menu.

Files and modules:

| file | module | contents |
|---|---|---|
| `text.dfy` | `Text` | ECMAScript whitespace, `trim`, ASCII lower-casing, `includes`, `startsWith` |
| `email.dfy` | `EmailShape` | the e-mail regular expression as an automaton, proved equal to the A@B.C shape |
| `blog.dfy` | `Blog` | posts, the seeded catalog, the filter, facet counts |
| `pagination.dfy` | `Pagination` | `Array.prototype.slice`, page slice, page count, page-number window |
| `blog_view.dfy` | `BlogView` | the list's query state and the reader's events |
| `contact.dfy` | `Contact` | form data, validation, edit, submit and relay outcome, banner timers |
| `header.dfy` | `Header` | active link, breakpoints, menu state |

Two facts about the code are easy to get wrong:

- `totalPages` is `Math.ceil(n / 6)`, so it is **0** for an empty result. The pagination
  bar appears only when it exceeds 1.
- The button's readiness check (`isFormValid`) is written differently from the on-submit
  validator (`validateForm`). It never tests the address for blankness. Even so, the two
  accept exactly the same forms, because an address matching the pattern is never blank.
  `Contact.FormValidIffValidates` proves this.

## Model

| member | source | states |
|---|---|---|
| Text.Trim | src/Components/Section/Contact.tsx:64-82 | `trim()` returns an infix of its input with only whitespace cut from either side, and the result neither starts nor ends with whitespace |
| Text.LeadingSpace | src/Components/Section/Contact.tsx:64 | the whitespace run at the start of a string: every character before the count is whitespace and the one at the count is not |
| Text.ContentEnd | src/Components/Section/Contact.tsx:64 | the end of a string's content: every character from there on is whitespace and the one before it is not |
| Text.TrimEmptyIffAllSpace | src/Components/Section/Contact.tsx:64-82 | a field counts as blank exactly when every character of it is whitespace |
| Text.Lower | src/Components/Section/Blog.tsx:135-138 | lower-casing keeps the length and maps each character on its own |
| Text.Includes | src/Components/Section/Blog.tsx:135-138 | `includes` holds exactly when the needle occurs at some position of the haystack |
| Text.PrefixesComparable | src/Components/Layout/Header.tsx:48 | two prefixes of one path are comparable, one being a prefix of the other |
| EmailShape.ValidateEmail | src/Components/Section/Contact.tsx:49-52 | the address test accepts exactly A + "@" + B + "." + C, with A, B and C non-empty and free of whitespace and '@' |
| EmailShape.RunClassifies | src/Components/Section/Contact.tsx:49-52 | after any input, the automaton is in the state that a closed-form description of the input predicts |
| EmailShape.ShapedIffAccepting | src/Components/Section/Contact.tsx:49-52 | the automaton accepts exactly the strings of the A@B.C shape |
| EmailShape.ShapedHasAt | src/Components/Section/Contact.tsx:49-52 | every accepted address contains an '@' |
| EmailShape.ValidNotBlank | src/Components/Section/Contact.tsx:49-52 | every accepted address has a non-whitespace character |
| Blog.FilterPosts | src/Components/Section/Blog.tsx:133-140 | every listed post is in the catalog and passes both the category and the search test, every catalog post that passes is listed, and the list is an order-preserving subsequence of the catalog |
| Blog.FilterPostsMultiplicity | src/Components/Section/Blog.tsx:133-140 | each post occurs in the list exactly as often as in the catalog when it passes both tests, and not at all otherwise, so no copy of a passing post is dropped |
| Blog.Matches | src/Components/Section/Blog.tsx:134-139 | defines the filter test: the category is "All" or the post's own, and the query is empty or occurs, ignoring case, in the title, the excerpt or a tag |
| Blog.SearchIgnoresCase | src/Components/Section/Blog.tsx:135-138 | two queries that differ only in letter case match the same posts |
| Blog.FilterIgnoresCase | src/Components/Section/Blog.tsx:133-140 | two queries that differ only in letter case list the same posts |
| Blog.EmptyQueryIsCategoryOnly | src/Components/Section/Blog.tsx:133-140 | with an empty search box, the list is the chosen category alone |
| Blog.FilterCategory | src/Components/Section/Blog.tsx:425 | the category-only filter lists only posts of that category, never more posts than the catalog holds, and the whole catalog for "All" |
| Blog.FilterCategoryMembers | src/Components/Section/Blog.tsx:425 | a post is listed by the category filter exactly when the catalog holds it and it belongs to the category |
| Blog.FacetCount | src/Components/Section/Blog.tsx:425 | a badge is the number of catalog posts in its category, and the catalog size for "All"; the search text is not an input |
| Blog.FacetCountIsCount | src/Components/Section/Blog.tsx:425 | the category filter's length is the number of posts with that category |
| Blog.FacetCountIsListedCount | src/Components/Section/Blog.tsx:425 | a badge equals the length of the list its button shows while the search box is empty |
| Blog.FrontendExample | src/Components/Section/Blog.tsx:24-140 | choosing "Frontend" with no search lists posts 1, 5 and 8, in that order |
| Blog.SampleFacetCounts | src/Components/Section/Blog.tsx:24-131 | the badges of the seeded catalog are All 8, Frontend 3, and 1 for each other category; every category button shows a non-zero badge, and the six specific badges add up to the "All" badge |
| Pagination.JsSlice | src/Components/Section/Blog.tsx:144 | `slice` with non-negative bounds returns the elements between the bounds clamped to the length, and nothing when the end is not after the start |
| Pagination.CurrentPosts | src/Components/Section/Blog.tsx:142-144 | page p (p ≥ 1) shows `filtered[(p-1)*6 .. min(p*6, n)]`, at most six posts, element k being filtered post (p-1)*6+k, and nothing when the start is at or past n |
| Pagination.TotalPages | src/Components/Section/Blog.tsx:145 | the page count is the fewest pages of six that hold all n posts, so it is 0 when n is 0 |
| Pagination.PaginationShownIff | src/Components/Section/Blog.tsx:478 | the pagination bar appears exactly when more than six posts match |
| Pagination.PagesPrefix | src/Components/Section/Blog.tsx:142-144 | pages 1..t laid end to end are the first min(6t, n) filtered posts |
| Pagination.PagesCoverFiltered | src/Components/Section/Blog.tsx:142-145 | pages 1..totalPages laid end to end are exactly the filtered list: no post is skipped or repeated |
| Pagination.PageEmptyIff | src/Components/Section/Blog.tsx:142-145 | a page p ≥ 1 is empty exactly when p is past totalPages |
| Pagination.PageWindow | src/Components/Section/Blog.tsx:488-498 | the window has min(totalPages, 5) buttons with consecutive numbers, all within 1..totalPages; it holds the current page whenever that is in 1..totalPages, and every page when there are at most five |
| Pagination.WindowEnds | src/Components/Section/Blog.tsx:490-495 | on a list of more than five pages the window shows pages 1..5 while the current page is at most 3, and the last five pages while it is within two of the last |
| Pagination.WindowCentred | src/Components/Section/Blog.tsx:496-498 | away from both ends of a long list, the current page is in the middle slot |
| Pagination.ClickSlot | src/Components/Section/Blog.tsx:488-508 | when the bar shows and the slot exists, the new page is the number on that button, within 1..totalPages; with no such button the page is unchanged |
| BlogView.SetSearch | src/Components/Section/Blog.tsx:399-402 | typing in the search box sets the text, keeps the category and puts the page back to 1 |
| BlogView.SelectCategory | src/Components/Section/Blog.tsx:412-415 | clicking a category sets it, keeps the search text and puts the page back to 1 |
| BlogView.Previous | src/Components/Section/Blog.tsx:480-486 | Previous moves back one page when enabled (bar shown and page ≠ 1), and otherwise changes nothing |
| BlogView.Next | src/Components/Section/Blog.tsx:511-517 | Next moves forward one page when enabled (bar shown and page ≠ totalPages), and otherwise changes nothing |
| BlogView.ClickPage | src/Components/Section/Blog.tsx:500-508 | clicking a window button keeps the category and search text and moves to the page that `Pagination.ClickSlot` gives |
| BlogView.Apply | src/Components/Section/Blog.tsx:399-517 | defines one reader action: typing a search, choosing a category, clicking a page button, Previous or Next, each handled by the member above |
| BlogView.ApplyKeepsPageInRange | src/Components/Section/Blog.tsx:399-517 | no reader action moves the page cursor outside 1..max(1, totalPages) |
| BlogView.PageAlwaysInRange | src/Components/Section/Blog.tsx:399-517 | after any sequence of reader actions from an in-range state, the page cursor is still in range |
| BlogView.InitialInRange | src/Components/Section/Blog.tsx:19-21 | the initial state (All, empty search, page 1) is in range |
| BlogView.EmptyStateIffNoMatch | src/Components/Section/Blog.tsx:433-475 | with the cursor in range, the "No articles found" panel shows exactly when no post matches |
| BlogView.PreviousNextStayInRange | src/Components/Section/Blog.tsx:480-517 | from a page in 1..totalPages, Previous and Next land in 1..totalPages |
| Contact.BlankIffAllSpace | src/Components/Section/Contact.tsx:64 | `!value.trim()` holds exactly when the value is all whitespace |
| Contact.ValidateForm | src/Components/Section/Contact.tsx:55-86 | the form is valid exactly when it sets no message, which is exactly when the name and message are not blank and the address has the A@B.C shape; each field's message depends on that field only; "required" is reported for a blank address and "invalid" only for a non-blank one of the wrong shape |
| Contact.EmailError | src/Components/Section/Contact.tsx:69-76 | defines the address message: "required" when blank, otherwise "invalid" when the pattern fails, otherwise none |
| Contact.SubjectNeverValidated | src/Components/Section/Contact.tsx:55-86 | the subject has no effect on validation |
| Contact.FormValidIffValidates | src/Components/Section/Contact.tsx:425-429 | the button's readiness check accepts exactly the forms the on-submit validator accepts |
| Contact.IsFormValid | src/Components/Section/Contact.tsx:425-429 | defines the readiness check: the name and message are not blank and the address passes the pattern test |
| Contact.SubmitDisabled | src/Components/Section/Contact.tsx:598 | defines the disabled button: a send is in flight or the readiness check fails |
| Contact.InitialDisabled | src/Components/Section/Contact.tsx:7-21 | the section starts with no messages and no banners, and the empty form leaves the button disabled |
| Contact.SetField | src/Components/Section/Contact.tsx:88-90 | an edit sets the edited field and leaves the other three as they were |
| Contact.ClearError | src/Components/Section/Contact.tsx:92-95 | clearing empties the edited field's message and leaves the others as they were |
| Contact.HandleChange | src/Components/Section/Contact.tsx:88-96 | an edit changes only that field's value and only that field's message, which becomes empty; the submit flags and banner are untouched |
| Contact.Submit | src/Components/Section/Contact.tsx:98-107 | submitting clears the failure banner, keeps the fields and shows exactly the messages the validator computes; an invalid form shows at least one message and does not start sending; a valid form shows none and starts sending |
| Contact.Resolve | src/Components/Section/Contact.tsx:109-147 | a successful send empties all fields and messages, ends sending and shows the success banner; a failed send keeps the fields, ends sending and sets the fixed failure message; with no form element nothing changes and sending stays on |
| Contact.SuccessTimerFired | src/Components/Section/Contact.tsx:138 | the success timer hides the success banner and changes nothing else |
| Contact.ErrorTimerFired | src/Components/Section/Contact.tsx:146 | the failure timer clears the failure message and changes nothing else |
| Contact.SubmitEnabledIff | src/Components/Section/Contact.tsx:598 | the button is enabled exactly when nothing is being sent and the validator would accept the form |
| Contact.AcceptedFormIff | src/Components/Section/Contact.tsx:425-429 | the readiness check holds exactly for the forms whose name and message are not blank and whose address can be written A@B.C from three valid parts (an accepted form) |
| Contact.SendSucceeds | src/Components/Section/Contact.tsx:98-138 | submit then success, from any accepted form: everything is cleared, the banner shows and the timer hides it, and the emptied form disables the button |
| Contact.SendFails | src/Components/Section/Contact.tsx:98-146 | submit then failure, from any accepted form: the fields are kept, the fixed message shows and the timer clears it |
| Contact.InFlightDisablesSubmit | src/Components/Section/Contact.tsx:596-598 | once an accepted form starts sending, the button is disabled, so only one send is in flight |
| Contact.EmptyAddressInvalid | src/Components/Section/Contact.tsx:49-52 | the empty address does not match |
| Contact.MissingNameExample | src/Components/Section/Contact.tsx:63-82 | name "", address "a@b.com", message "hi" is invalid, with only the "Full name is required" message |
| Contact.PartsAccepted | src/Components/Section/Contact.tsx:49-52 | every address assembled as A + "@" + B + "." + C from three valid parts passes the pattern test |
| Contact.ShortAddressAccepted | src/Components/Section/Contact.tsx:49-52 | "a@b.co" is accepted |
| Contact.NoAtRejected | src/Components/Section/Contact.tsx:69-76 | a non-blank address without '@' fails the check and gets the "invalid" message |
| Contact.NotAnEmailRejected | src/Components/Section/Contact.tsx:69-76 | "not-an-email" gets the "invalid" message |
| Header.IsActive | src/Components/Layout/Header.tsx:46-50 | defines the highlight test: the home link only on "/" itself, any other link on every path that starts with its own |
| Header.HomeActiveIff | src/Components/Layout/Header.tsx:47 | the home link is highlighted exactly when the path is "/" |
| Header.PrefixActive | src/Components/Layout/Header.tsx:48 | any other link is highlighted on every path that starts with its own, word boundary or not |
| Header.BlogXExample | src/Components/Layout/Header.tsx:48 | "/blogX" highlights the "/blog" link |
| Header.OwnPathActive | src/Components/Layout/Header.tsx:13-50 | each navigation link is highlighted on its own path |
| Header.PathsPrefixFree | src/Components/Layout/Header.tsx:13-21 | no non-root path in the navigation table is a prefix of another |
| Header.AtMostOneActive | src/Components/Layout/Header.tsx:13-50 | for any path, at most one of the seven links is highlighted |
| Header.IsMobile | src/Components/Layout/Header.tsx:24 | defines the mobile breakpoint: a width of at most 768 |
| Header.IsTablet | src/Components/Layout/Header.tsx:25 | defines the tablet breakpoint: a width over 768 and at most 1024 |
| Header.BreakpointsPartition | src/Components/Layout/Header.tsx:24-25 | no width is both mobile and tablet, and a width is neither exactly when it is over 1024 |
| Header.CloseOnDesktop | src/Components/Layout/Header.tsx:36-38 | the effect closes a menu left open wider than 768 and otherwise changes nothing |
| Header.MenuStep | src/Components/Layout/Header.tsx:261-381 | on a mobile width the menu button flips the menu; a link click (or an overlay click) closes it; a resize to a mobile width leaves the menu as it was; after any event and the effect, the menu is closed wider than 768 |
| Header.MenuRunKeepsInvariant | src/Components/Layout/Header.tsx:28-44 | from a state whose menu is closed or on mobile, every sequence of events keeps it so |

## Left out

- Styles, icons, JSX layout and the embedded CSS: they are presentational only.
- The relay call (`emailjs.sendForm`) is a foreign network client. Its result is an input
  to `Contact.Resolve`: sent, failed, or the form element missing. The service, template
  and key identifiers play no part.
- The five-second `setTimeout` calls are modelled as explicit timer events, with no clock.
  The source never cancels these timers, and a failure timer can clear a later failure's
  message. The model lets a timer event fire at any point, so it includes that case.
- Window resize and scroll listeners, `window.scrollTo`, the `isScrolled` flag,
  `useLocation` and the theme context are browser and router plumbing. The path and the
  width are plain inputs.
- The contact section's own `isMobile`/`isTablet` (Contact.tsx:25-26) match the header's
  and only select styles.
- Text.Lower: it lower-cases only the ASCII letters. `toLowerCase` also maps non-ASCII
  letters, so the search is modelled as case-insensitive over ASCII only.
- Post fields other than the category, title, excerpt and tags are carried but unused,
  since nothing in the logic reads them.
- React's rendering and batching are not modelled. Each handler is one atomic state
  change, and the header's effect runs right after each event.
- `isFormValid` returns a string or a boolean in the source. The model keeps only its
  truthiness.
- Browser-level form checks are not modelled. These are the `required` attributes and
  the `type="email"` input.
