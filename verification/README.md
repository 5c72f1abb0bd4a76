# gnm event site — a verified model of its logic

gnm is an event-booking website. It has a React/TypeScript front end and a Django back end. Most of it is presentation. This project models the pure, sequential logic underneath and proves properties of it:

- **Staff dashboard and booking history.** Client-side search, remove-by-id and replace-by-id list updates, the per-user join with its five-item preview, and the past/upcoming counters.
- **Form pipelines.** Booking, signup, login, reset password, forgot password and profile. Each is an ordered validation chain that rejects input before any request is sent. The login form's `csrftoken` cookie parser is modelled with percent-decoding, and the forgot-password email pattern is modelled too.
- **Small state machines.** The route guard, the header's session state and logout, the gallery lightbox, and the profile edit/cancel/save cycle.
- **Back-end rules.**
  - Login, registration, password reset request, reset confirm and token validation, in their check order.
  - The one-shot Google OAuth code guard.
  - The profile serializer's field validators, the image URL, the upload path and `full_name`.
  - The booking table's schema bounds.

Network replies are inputs: `Reply<T> = Ok(data) | Fail(ErrorBody(status, detail, message))`. Toasts and navigations are returned values (`Notice`, `Navigation`). The back end's oracles are function parameters:

- the password hasher (`checkPassword`);
- the uid decoder (`UidDecoder`);
- the token generator (`TokenCheck`);
- the mailer's success (`mailSent`);
- the clock (`now`).

Dates are integers: `new Date(eventDate)` becomes an instant.

Modules follow the program's structure:

- Shared helpers:
  - `Wrappers` (Option);
  - `Seqs` (order-preserving filter);
  - `Text` (case mapping, whitespace classes, `strip`, substring search, decimal rendering);
  - `Http` (replies, notices, error text);
  - `UriCodec` (`encodeURIComponent`/`decodeURIComponent`).
- Staff and history lists: `Bookings`, `Admin`, `History`.
- Booking form and stored record: `BookingForm`, `BookingRecord`.
- Session and navigation: `Identity`, `Header`, `RouteGuard`.
- Auth pages: `Csrf`, `LoginPage`, `SignupPage`, `ResetPasswordPage`, `ForgotPasswordPage`.
- Gallery and profile: `Gallery`, `ProfilePage`.
- Back end: `Accounts` (accounts/views.py) and `ProfileRules` (profile serializers and model).
- Cross-tier: `Journeys`, which connects the pages to the views they call.

Behaviour of the code worth knowing:

- An event dated today counts as past as soon as the day has begun. `new Date("YYYY-MM-DD")` is midnight UTC, and it is compared with the current instant.
- The booking form keeps the event type "Other" when the custom type is empty.
- The stored booking row declares no status and no owner field.
- The signup page defines the CSRF helper but never sends the header.
- `register_user` ignores the phone number.
- The reset-password page counts the new password in UTF-16 units and the confirm view counts characters (see "Findings").
- A profile username is trimmed and checked for uniqueness by the serializer field derived from the model before `validate_username` runs, so the validator only sees trimmed values.

## Model

| member | source | states |
|---|---|---|
| Seqs.Filter | frontend/gnm/src/pages/Admin.tsx:92-97 | `Array.filter`: every element satisfying the predicate is kept with its multiplicity and every other one is dropped, in the original order (a subsequence) |
| Seqs.FilterPartition | frontend/gnm/src/pages/Admin.tsx:213-214 | two complementary predicates split a list into parts whose sizes, and multisets, add up to the whole |
| Bookings.RemoveById | frontend/gnm/src/pages/Admin.tsx:158 | after a delete, a booking is kept iff it was there and has another id; order is kept; the length drops by the number of bookings with that id |
| Bookings.RemoveAbsent | frontend/gnm/src/pages/History.tsx:63 | deleting an id that is not listed changes nothing |
| Bookings.RemoveIdempotent | frontend/gnm/src/pages/History.tsx:63 | a second delete of the same id is a no-op |
| Bookings.ReplaceById | frontend/gnm/src/pages/Admin.tsx:189 | after an update the length is unchanged, every booking with the id becomes the server's record, and every other booking is untouched |
| Bookings.ReplaceAbsent | frontend/gnm/src/pages/Admin.tsx:189 | updating an id that is not listed changes nothing |
| Bookings.ReplaceIdempotent | frontend/gnm/src/pages/Admin.tsx:189 | applying the same server record twice equals applying it once |
| Bookings.ReplaceThenRemove | frontend/gnm/src/pages/Admin.tsx:158-189 | an update followed by a delete of the same id leaves the same list as the delete alone |
| Bookings.PastPlusUpcoming | frontend/gnm/src/pages/Admin.tsx:210-214 | every booking is either past (before now) or upcoming (at or after now), so the two counts sum to the total |
| Bookings.PastGrowsWithTime | frontend/gnm/src/pages/History.tsx:193-202 | a later "now" never lowers the past count nor raises the upcoming count |
| Admin.SearchBookings | frontend/gnm/src/pages/Admin.tsx:92-97 | a booking is listed iff the lower-cased term occurs in its lower-cased name, email, event type or (present, non-empty) owner email; order is kept |
| Admin.SearchBookingsEmptyTerm | frontend/gnm/src/pages/Admin.tsx:92-98 | an empty term lists every booking in the fetched order |
| Admin.SearchBookingsIgnoresTermCase | frontend/gnm/src/pages/Admin.tsx:94-96 | searching for the lower-cased term gives the same list as the term itself |
| Admin.SearchUsers | frontend/gnm/src/pages/Admin.tsx:102-110 | a user is listed iff the term occurs in username or email, or in a present non-empty first name, last name, phone, location or occupation; order is kept |
| Admin.SearchUsersEmptyTerm | frontend/gnm/src/pages/Admin.tsx:102-111 | an empty term lists every user |
| Admin.SearchUsersOptionalFieldsNeedValues | frontend/gnm/src/pages/Admin.tsx:105-109 | for every combination of absent or empty optional fields, such a user is found only by username or email |
| Admin.UserBookings | frontend/gnm/src/pages/Admin.tsx:206-208 | the per-user list holds exactly the bookings whose owner is that user, in order |
| Admin.AnonymousBookingsUnowned | frontend/gnm/src/pages/Admin.tsx:207 | a booking without an owner is in no user's list |
| Admin.UserBookingsDisjoint | frontend/gnm/src/pages/Admin.tsx:207 | the lists of two distinct users never share a booking |
| Admin.Card | frontend/gnm/src/pages/Admin.tsx:556-599 | the card shows the first min(5, n) of the user's bookings; "+K more" appears iff n > 5, with preview plus K equal to n; the total note appears iff the server's count differs from n; the history block iff n > 0 |
| Admin.CardName | frontend/gnm/src/pages/Admin.tsx:458-460 | both names when both are present and non-empty, otherwise the username |
| Admin.ComputeStats | frontend/gnm/src/pages/Admin.tsx:210-215 | totals are the list lengths and upcoming plus past equals the booking total |
| Admin.FetchBookings | frontend/gnm/src/pages/Admin.tsx:114-131 | success replaces the list, failure keeps it and shows an error; loading ends either way; users untouched |
| Admin.FetchUsers | frontend/gnm/src/pages/Admin.tsx:133-148 | success replaces only the users; failure changes nothing and shows an error |
| Admin.FetchesCommute | frontend/gnm/src/pages/Admin.tsx:86-89 | the two fetches started together leave the same state in either order of arrival |
| Admin.LatestBookingsWin | frontend/gnm/src/pages/Admin.tsx:114-131 | a successful bookings fetch shows the server list whatever an earlier fetch left |
| Admin.HandleDelete | frontend/gnm/src/pages/Admin.tsx:150-171 | a request is sent iff confirmed; the list loses the id iff confirmed and the server accepted; otherwise the state is unchanged |
| Admin.HandleEdit | frontend/gnm/src/pages/Admin.tsx:173-177 | opens the dialog with the booking as draft and selection; the list is untouched |
| Admin.EditDraft | frontend/gnm/src/pages/Admin.tsx:634-732 | typing changes only the draft, never the list, selection or dialog |
| Admin.CancelEdit | frontend/gnm/src/pages/Admin.tsx:741 | closes the dialog, leaving list and selection |
| Admin.HandleUpdate | frontend/gnm/src/pages/Admin.tsx:179-204 | with no selection nothing happens; otherwise the draft is sent for the selected id, success replaces that id by the server's record and closes the dialog, failure keeps everything |
| Admin.UpdateTrustsServer | frontend/gnm/src/pages/Admin.tsx:189 | after a successful update the slot shows the server's record, not the draft |
| History.Fetch | frontend/gnm/src/pages/History.tsx:36-53 | success shows the server's list, failure keeps the list and shows an error; loading ends |
| History.LatestFetchWins | frontend/gnm/src/pages/History.tsx:36-53 | a successful fetch shows the server list whatever an earlier fetch left |
| History.FailedFirstLoadIsEmpty | frontend/gnm/src/pages/History.tsx:29-53 | a failed first load shows the empty history with loading ended |
| History.HandleDelete | frontend/gnm/src/pages/History.tsx:55-76 | a declined confirmation sends nothing; a failed call leaves the list; only a confirmed success removes the id, with the matching notices |
| History.StaleDeleteKeepsList | frontend/gnm/src/pages/History.tsx:64-75 | a failed delete leaves the list exactly as it was |
| History.Summarize | frontend/gnm/src/pages/History.tsx:185-202 | total is the length; past holds exactly the bookings before now, upcoming those at or after now; past plus upcoming is the total |
| History.DeleteLowersTotal | frontend/gnm/src/pages/History.tsx:63 | deleting an id present once lowers the total by one |
| BookingForm.ToPayload | frontend/gnm/src/pages/Booking.tsx:48-56 | "Other" with a non-empty custom type sends the custom type, "Other" with an empty one sends "Other", any other type passes through; every other field is copied and the custom field is dropped |
| BookingForm.CustomTypeIgnoredUnlessOther | frontend/gnm/src/pages/Booking.tsx:51 | the custom text has no effect unless "Other" is selected |
| BookingForm.SentinelReplacedWhenGated | frontend/gnm/src/pages/Booking.tsx:51-53 | when the browser's required inputs are filled, "Other" is always replaced by the custom type |
| BookingForm.BrowserAllowsSubmit | frontend/gnm/src/pages/Booking.tsx:128-223 | the browser submits only when name, email, phone, date and guest count are filled, and the custom type too while "Other" is selected; the event-type select is not required |
| BookingForm.SentinelKeptWithoutCustomType | frontend/gnm/src/pages/Booking.tsx:51 | with an empty custom type the literal "Other" is sent |
| BookingForm.Submit | frontend/gnm/src/pages/Booking.tsx:77-96 | success resets the form to all-empty, failure keeps it; the payload is the transform of the form |
| BookingForm.SuccessBlocksResubmit | frontend/gnm/src/pages/Booking.tsx:77-87 | after a success the form is empty, so the required inputs stop an immediate second submit |
| BookingForm.RetryResendsSamePayload | frontend/gnm/src/pages/Booking.tsx:89-96 | after a failure the kept form sends the same payload again |
| BookingRecord.Violations | backend/gnm/app1/models.py:14-24 | the row is valid iff no field breaks its bound (name 100, email 254, phone 15, eventType 50, venue 200, budget 50); each field is reported iff it breaks its own bound |
| BookingRecord.OptionalFieldsMayBeAbsent | backend/gnm/app1/models.py:20-23 | venue, budget and special requests may be null in a valid row |
| BookingRecord.LongCustomTypeExceedsSchema | backend/gnm/app1/models.py:18 | a custom event type over 50 characters is forwarded verbatim and cannot be stored |
| Identity.FirstUpper | frontend/gnm/src/components/layout/Header.tsx:122-123 | the ASCII upper-cased first character (a whole Unicode scalar) iff the name is present and non-empty, otherwise empty |
| Identity.Initials | frontend/gnm/src/components/layout/Header.tsx:120-125 | "U" without a user; first and last initials when present; otherwise the username's initial, or "U"; one or two characters under ASCII upper-casing |
| Identity.DisplayName | frontend/gnm/src/components/layout/Header.tsx:127-133 | "User" without a user; "first last" when both are non-empty; otherwise the username if non-empty, else the email |
| Identity.DisplayNameNonEmpty | frontend/gnm/src/components/layout/Header.tsx:127-133 | a signed-in identity with an email always has a non-empty display name |
| Identity.DisplayNameNeedsBothNames | frontend/gnm/src/components/layout/Header.tsx:129-131 | a first name alone is not shown: the username is |
| Header.CheckAuth | frontend/gnm/src/components/layout/Header.tsx:50-73 | a user body logs in with isAdmin = is_staff or false; a failure clears login, user and admin together; an empty body changes nothing but loading |
| Header.CheckAuthPreservesConsistency | frontend/gnm/src/components/layout/Header.tsx:57-68 | logged-in iff a user is held, and admin iff that user is staff, before and after a check |
| Header.ChecksOn | frontend/gnm/src/components/layout/Header.tsx:50-75 | the auth effect's dependency list `[location.pathname]`: it runs on mount and when the pathname changes |
| Header.ChecksAlong | frontend/gnm/src/components/layout/Header.tsx:50-75 | the number of checks one header instance runs along a sequence of locations; at most one per location |
| Header.PathChanges | frontend/gnm/src/components/layout/Header.tsx:75 | the number of adjacent steps that move to another pathname; fewer than the locations |
| Header.ChecksPerPathChange | frontend/gnm/src/components/layout/Header.tsx:50-75 | along any non-empty navigation, the check runs exactly once on mount plus once per change of pathname |
| Header.QueryChangesCheckOnce | frontend/gnm/src/components/layout/Header.tsx:75 | a navigation that changes only the query string, however often, runs the check exactly once |
| Header.Logout | frontend/gnm/src/components/layout/Header.tsx:88-118 | the session is cleared, the menu closed and /login opened with replace |
| Header.LogoutFailsOpen | frontend/gnm/src/components/layout/Header.tsx:96-116 | a failed logout call ends exactly like a successful one |
| Header.AdminLinkImpliesHistoryLink | frontend/gnm/src/components/layout/Header.tsx:50-75 | in a consistent state the admin link is shown only with the history link |
| Header.MountIsConsistent | frontend/gnm/src/components/layout/Header.tsx:50-75 | the first check from the initial state yields a consistent state |
| RouteGuard.Resolve | frontend/gnm/src/components/auth/ProtectedRoute.tsx:21-28 | an answered check is never unknown; authenticated iff the call succeeded |
| RouteGuard.Render | frontend/gnm/src/components/auth/ProtectedRoute.tsx:33-42 | children iff authenticated, the loading view iff unknown, a replacing redirect to /login otherwise |
| RouteGuard.ChecksOn | frontend/gnm/src/components/auth/ProtectedRoute.tsx:20-31 | the guard's effect has an empty dependency list: it runs on mount only |
| RouteGuard.Trace | frontend/gnm/src/components/auth/ProtectedRoute.tsx:20-31 | the events one instance sees: the mount first, then one change per path |
| RouteGuard.PathChangesNeverCheck | frontend/gnm/src/components/auth/ProtectedRoute.tsx:31 | a run of path changes runs no check |
| RouteGuard.OneCheckPerInstance | frontend/gnm/src/components/auth/ProtectedRoute.tsx:20-31 | one guard instance runs the check exactly once, however many path changes follow its mount |
| RouteGuard.Views | frontend/gnm/src/components/auth/ProtectedRoute.tsx:18-42 | a mount shows the loading view, then children iff the call succeeded, else the redirect |
| RouteGuard.NoChildrenBeforeAnswer | frontend/gnm/src/components/auth/ProtectedRoute.tsx:33-39 | children are never shown before the answer, and never after a failure |
| RouteGuard.EmptyBodyGuardAndHeaderDisagree | frontend/gnm/src/components/auth/ProtectedRoute.tsx:23-24 | a 2xx reply with an empty body lets the guard render children while the header stays logged out |
| UriCodec.Decode | frontend/gnm/src/pages/Login.tsx:26 | `decodeURIComponent`: text without `%` is returned unchanged; a `%` not followed by two hex digits throws, wherever in the string it stands |
| UriCodec.DecodeWithoutEscapes | frontend/gnm/src/pages/Login.tsx:26 | a string without `%` decodes to itself |
| UriCodec.BadEscapeThrows | frontend/gnm/src/pages/Login.tsx:26 | a truncated or non-hex escape anywhere in the string, even after valid escapes, makes the decode throw |
| UriCodec.LateBadEscapeThrows | frontend/gnm/src/pages/Login.tsx:26 | `"%41%G"` throws although its first escape is valid |
| UriCodec.Encode | frontend/gnm/src/pages/Login.tsx:26 | the reference encoder `encodeURIComponent` that `decodeURIComponent` inverts: its output holds only unreserved characters and `%`, and an all-unreserved string passes unchanged |
| UriCodec.EncodeChar | frontend/gnm/src/pages/Login.tsx:26 | an unreserved character is kept as is; any other becomes one `%XY` escape per UTF-8 byte, in order |
| UriCodec.DecodeEncode | frontend/gnm/src/pages/Login.tsx:26 | decoding an encoded string gives the string back |
| Csrf.MatchCookie | frontend/gnm/src/pages/Login.tsx:25 | the leftmost match of `(?:^\|;\s*)csrftoken=([^;]+)` with its captured value |
| Csrf.MatchIsLookup | frontend/gnm/src/pages/Login.tsx:25 | the regex scan equals splitting on `;` and taking the first segment that starts with `csrftoken=` and a non-empty value, where the first segment is tested as it stands and each later one after trimming its leading `\s` |
| Csrf.UnanchoredNameIgnored | frontend/gnm/src/pages/Login.tsx:25 | a name that merely ends in `csrftoken` (as in `xcsrftoken=`) is not matched |
| Csrf.EmptyValueIgnored | frontend/gnm/src/pages/Login.tsx:25 | `csrftoken=;` yields no token |
| Csrf.LaterPairFound | frontend/gnm/src/pages/Login.tsx:25 | a pair after `;` and spaces is found when no earlier pair matches |
| Csrf.GetCsrfCookie | frontend/gnm/src/pages/Login.tsx:24-27 | null without a match, the percent-decoded value with one, a throw when the value's escapes are malformed |
| Csrf.EncodedTokenReadsBack | frontend/gnm/src/pages/Signup.tsx:36-39 | a cookie that starts with `csrftoken=` and the encoded token reads back as that token, whatever follows the `;` |
| LoginPage.Submit | frontend/gnm/src/pages/Login.tsx:65-116 | no request iff a field is empty; a failed CSRF call stops after it; with a decodable cookie a failed login stops after two calls and a failed identity call after three, each with `detail || message || fallback`; all succeeding goes home |
| LoginPage.SubmitStopsAtFirstFailure | frontend/gnm/src/pages/Login.tsx:76-101 | the calls made are the prefix of the chain up to and including the first failing step, and home is opened iff every step passes |
| LoginPage.MalformedCookieStopsBeforePost | frontend/gnm/src/pages/Login.tsx:77-90 | a cookie whose value fails to decode aborts the pipeline before the post |
| LoginPage.NoCookieSendsEmptyHeader | frontend/gnm/src/pages/Login.tsx:88 | without a token the post carries an empty CSRF header |
| LoginPage.OnMount | frontend/gnm/src/pages/Login.tsx:51-63 | a signed-in visitor is sent home with replace; others stay |
| SignupPage.ToPayload | frontend/gnm/src/pages/Signup.tsx:96-102 | camel-case names map to first_name/last_name; email, phone and password are copied |
| SignupPage.Rejection | frontend/gnm/src/pages/Signup.tsx:81-88 | missing required fields are reported first, then a password mismatch; none iff both checks pass |
| SignupPage.Submit | frontend/gnm/src/pages/Signup.tsx:77-114 | a request iff the checks pass, carrying the mapped payload; /login is opened iff the server accepted; failures show detail, message or the fallback |
| SignupPage.PhoneNotRequired | frontend/gnm/src/pages/Signup.tsx:81 | the phone never decides whether a request is sent |
| SignupPage.MissingFieldReportedFirst | frontend/gnm/src/pages/Signup.tsx:81-84 | a missing field is reported even when the passwords also differ |
| SignupPage.ConfirmationNotSent | frontend/gnm/src/pages/Signup.tsx:96-102 | the confirmation never reaches the payload |
| ResetPasswordPage.CheckLink | frontend/gnm/src/pages/ResetPassword.tsx:39-80 | a call iff both uid and token are present; the token is valid iff the call succeeded with valid set; an error notice iff not valid |
| ResetPasswordPage.Rejection | frontend/gnm/src/pages/ResetPassword.tsx:87-112 | empty fields, then mismatch, then fewer than 8 UTF-16 units (`.length`), first failure wins; none iff all pass |
| ResetPasswordPage.CorrectedRejection | frontend/gnm/src/pages/ResetPassword.tsx:87-112 | the same checks with the length counted in characters, as the confirm view counts it; whatever it lets through, the page as written lets through too |
| ResetPasswordPage.RejectionsDifferOnlyOnAstral | frontend/gnm/src/pages/ResetPassword.tsx:105 | the two length checks disagree exactly on passwords of fewer than 8 characters and at least 8 UTF-16 units |
| ResetPasswordPage.Submit | frontend/gnm/src/pages/ResetPassword.tsx:84-145 | the confirm request is sent iff the checks pass and carries uid, token and password; success iff the call succeeded |
| ResetPasswordPage.EightCharactersAccepted | frontend/gnm/src/pages/ResetPassword.tsx:105 | any eight characters pass, since they take at least eight UTF-16 units |
| ResetPasswordPage.ShortPasswordNeverSent | frontend/gnm/src/pages/ResetPassword.tsx:105-121 | a password of fewer than 8 UTF-16 units sends nothing and never succeeds |
| ResetPasswordPage.Render | frontend/gnm/src/pages/ResetPassword.tsx:152-215 | the form shows iff validation finished with a valid token and no success; the done view iff it succeeded |
| ResetPasswordPage.FormNeedsValidLink | frontend/gnm/src/pages/ResetPassword.tsx:168 | the form is reachable only through a present link the server called valid |
| ForgotPasswordPage.IndexOf | frontend/gnm/src/pages/ForgotPassword.tsx:39 | the first position of the character, none iff absent |
| ForgotPasswordPage.EmailCheckIsPattern | frontend/gnm/src/pages/ForgotPassword.tsx:39-47 | the scan accepts exactly the strings of the form L@D.T with non-empty parts free of whitespace and `@` (D may contain dots) |
| ForgotPasswordPage.SpaceRejected | frontend/gnm/src/pages/ForgotPassword.tsx:39 | any space rejects the address |
| ForgotPasswordPage.DottedDomainAccepted | frontend/gnm/src/pages/ForgotPassword.tsx:39 | a domain with several dots is accepted |
| ForgotPasswordPage.Submit | frontend/gnm/src/pages/ForgotPassword.tsx:26-70 | a request iff the email is non-empty and matches; the sent state iff requested, whether the call succeeded or failed |
| ForgotPasswordPage.FailureIsUniform | frontend/gnm/src/pages/ForgotPassword.tsx:65-69 | every failure produces the same outcome |
| ForgotPasswordPage.TryAnother | frontend/gnm/src/pages/ForgotPassword.tsx:97-103 | "try a different email" hides the card and keeps the typed address |
| ForgotPasswordPage.AfterSubmit | frontend/gnm/src/pages/ForgotPassword.tsx:26-73 | the address is kept, and the card shows iff the address passed the two checks |
| ForgotPasswordPage.TryAnotherUndoesSubmit | frontend/gnm/src/pages/ForgotPassword.tsx:56-99 | submitting and then choosing another address returns to the form as it was left |
| Gallery.Filtered | frontend/gnm/src/pages/Gallery.tsx:75-77 | "All" gives every item; any other filter exactly the items of that category, in order |
| Gallery.ItemShownUnderItsCategory | frontend/gnm/src/pages/Gallery.tsx:75-77 | every item is shown under its own category |
| Gallery.FilteredIdempotent | frontend/gnm/src/pages/Gallery.tsx:75-77 | filtering the shown items again by the same choice changes nothing |
| Gallery.Next | frontend/gnm/src/pages/Gallery.tsx:87-91 | the index stays in range and wraps from the last to the first; a closed lightbox stays closed |
| Gallery.Prev | frontend/gnm/src/pages/Gallery.tsx:93-97 | the index stays in range and wraps from the first to the last; a closed lightbox stays closed |
| Gallery.PrevNext | frontend/gnm/src/pages/Gallery.tsx:87-97 | previous undoes next |
| Gallery.NextPrev | frontend/gnm/src/pages/Gallery.tsx:87-97 | next undoes previous |
| Gallery.ForwardIsRotation | frontend/gnm/src/pages/Gallery.tsx:87-91 | k steps forward from i land on (i + k) mod n |
| Gallery.FullTurn | frontend/gnm/src/pages/Gallery.tsx:87-91 | n steps forward return to the start |
| Gallery.SingleItemStays | frontend/gnm/src/pages/Gallery.tsx:87-97 | with one item both arrows keep it |
| ProfilePage.EditableOf | frontend/gnm/src/pages/Profile.tsx:94-101 | the editable fields are the user's names and username, "" where missing or empty |
| ProfilePage.Fetch | frontend/gnm/src/pages/Profile.tsx:55-88 | a user body fills user and fields; /login is opened iff the call failed with 401; loading ends |
| ProfilePage.Edit | frontend/gnm/src/pages/Profile.tsx:90-92 | only the editing flag changes |
| ProfilePage.Cancel | frontend/gnm/src/pages/Profile.tsx:94-101 | leaves edit mode and restores the fields from the current user |
| ProfilePage.CancelForgetsDraft | frontend/gnm/src/pages/Profile.tsx:94-101 | what was typed before cancelling is irrelevant |
| ProfilePage.CancelAfterFetchRestores | frontend/gnm/src/pages/Profile.tsx:61-66 | edit then cancel after a fetch returns to the fetched state |
| ProfilePage.Save | frontend/gnm/src/pages/Profile.tsx:103-142 | a request iff all three fields are non-empty, carrying them; success stores the server's user and leaves edit mode; failure keeps the state and shows detail, message or the fallback |
| ProfilePage.CancelAfterSaveShowsServerValues | frontend/gnm/src/pages/Profile.tsx:118-120 | cancelling after a save shows the server's values, not the draft |
| ProfilePage.AvatarInitials | frontend/gnm/src/pages/Profile.tsx:148-153 | the avatar uses the header's initials rule |
| Accounts.ByEmail | backend/gnm/accounts/views.py:197-198 | `get(email=)`: no match iff no account has the email; one iff exactly one; several iff more |
| Accounts.NormalizeEmail | backend/gnm/accounts/views.py:185 | stripped and ASCII lower-cased: no outer whitespace, and no longer than the input |
| Accounts.NormalizeIdempotent | backend/gnm/accounts/views.py:185 | normalising twice is normalising once |
| Accounts.Login | backend/gnm/accounts/views.py:184-248 | 200 with the two session cookies iff both fields are present, the email names one account, its password checks and it is active; 400 for a missing field before any lookup |
| Accounts.UnknownEmailLooksLikeWrongPassword | backend/gnm/accounts/views.py:195-208 | an unknown email and a wrong password give the identical response |
| Accounts.DisabledOnlyAfterPassword | backend/gnm/accounts/views.py:204-215 | with a wrong password, "disabled" is never revealed |
| Accounts.RegisterRejection | backend/gnm/accounts/views.py:341-363 | no rejection iff all fields are present, the password has 8 characters, the email has `@` and `.`, and neither email nor username is taken; every rejection is a 400 |
| Accounts.Register | backend/gnm/accounts/views.py:329-387 | 201 iff no rejection, and then exactly one account is appended; 400 leaves the store unchanged |
| Accounts.RegisterIgnoresPhone | backend/gnm/accounts/views.py:334-345 | the phone never changes the outcome |
| Accounts.ShortPasswordBeforeEmailChecks | backend/gnm/accounts/views.py:346-350 | a short password is reported before the email is examined |
| Accounts.RegisteredEmailIsFound | backend/gnm/accounts/views.py:359-371 | after a registration, logging in with the same email (any case or padding) finds exactly the new account |
| Accounts.ResetRequest | backend/gnm/accounts/views.py:395-518 | 400 for a blank email; the generic 200 iff the email is unknown or the single account's mail went out |
| Accounts.ResetRequestHidesAccounts | backend/gnm/accounts/views.py:409-414 | an unknown and a registered email get the same response |
| Accounts.ResetConfirm | backend/gnm/accounts/views.py:526-603 | missing fields, then short passwords, are refused first; the password is replaced iff the uid names an account whose token checks, and then for that account |
| Accounts.ConfirmPrechecksIgnoreOracles | backend/gnm/accounts/views.py:537-562 | those first refusals do not depend on the decoder or the token checker |
| Accounts.ValidateToken | backend/gnm/accounts/views.py:610-645 | 400 for a missing field; otherwise 200, valid iff the uid names an account whose token checks |
| Accounts.ValidLinkConfirms | backend/gnm/accounts/views.py:526-645 | a link the validator accepts confirms any long enough password |
| Accounts.GoogleCallback | backend/gnm/accounts/views.py:55-70 | no code is refused; the exchange proceeds iff the (code, state) key is not live, and marks it for 300 s before exchanging |
| Accounts.CodeUsedOnce | backend/gnm/accounts/views.py:64-70 | within the window a second use of the same pair is refused |
| Accounts.CodeReusableAfterWindow | backend/gnm/accounts/views.py:69-70 | after 300 s the same pair is accepted again |
| Accounts.MissingStateIsNoneString | backend/gnm/accounts/views.py:64 | a missing state and the literal state "None" share a key |
| ProfileRules.ValidateUsername | backend/gnm/profile/serializers.py:44-51 | blank is refused; uniqueness among the other accounts is tested on the value received; the stripped value is returned |
| ProfileRules.UsernameField | backend/gnm/profile/serializers.py:32-51 | the model field's pipeline: blank refused, the value trimmed, refused iff another account holds the trimmed value, and the trimmed value stored |
| ProfileRules.ValidatorSeesStoredValue | backend/gnm/profile/serializers.py:44-51 | the validator receives the trimmed value, so it tests the value that is stored and passes it unchanged |
| ProfileRules.PaddedNameRefused | backend/gnm/profile/serializers.py:32-42 | another account's name padded with a space is trimmed and refused as taken |
| ProfileRules.ValidUsernameIsFree | backend/gnm/profile/serializers.py:32-51 | a name the field accepts is held by no other account |
| ProfileRules.OwnNameAllowed | backend/gnm/profile/serializers.py:49 | a user may keep their own name: the field accepts it unchanged |
| ProfileRules.ValidateName | backend/gnm/profile/serializers.py:53-63 | None passes; empty or whitespace is refused with the field's message; anything else is returned stripped |
| ProfileRules.ValidateFirstName | backend/gnm/profile/serializers.py:53-57 | None passes; refused iff present and blank, with "First name cannot be empty."; otherwise the stripped value |
| ProfileRules.ValidateLastName | backend/gnm/profile/serializers.py:59-63 | None passes; refused iff present and blank, with "Last name cannot be empty."; otherwise the stripped value |
| ProfileRules.NameValidationIdempotent | backend/gnm/profile/serializers.py:53-57 | validating an accepted name again changes nothing |
| ProfileRules.Cleaned | backend/gnm/profile/serializers.py:68 | the phone without spaces, dashes and parentheses: only those characters are removed |
| ProfileRules.ValidatePhone | backend/gnm/profile/serializers.py:65-71 | refused iff more than 20 characters remain after cleaning; an accepted phone is returned unmodified |
| ProfileRules.FillerDoesNotCount | backend/gnm/profile/serializers.py:68-69 | appending spaces, dashes or parentheses never changes the verdict |
| ProfileRules.ValidateWebsite | backend/gnm/profile/serializers.py:73-77 | a non-empty website is refused iff it starts with neither `http://` nor `https://` |
| ProfileRules.SchemePrefixAccepted | backend/gnm/profile/serializers.py:75 | any value behind `http://` or `https://` is accepted unchanged |
| ProfileRules.RefusedWebsiteHasNoScheme | backend/gnm/profile/serializers.py:75-76 | a refused website begins with neither scheme |
| ProfileRules.ValidateImage | backend/gnm/profile/serializers.py:79-90 | an image passes iff it is at most 5·1024·1024 bytes and of one of the five types; size is checked first |
| ProfileRules.FiveMegabytesAccepted | backend/gnm/profile/serializers.py:83 | exactly 5·1024·1024 bytes is accepted |
| ProfileRules.SizeBeatsType | backend/gnm/profile/serializers.py:83-89 | an oversized upload gets the same verdict whatever its content type |
| ProfileRules.TypeDecidesWithinLimit | backend/gnm/profile/serializers.py:86-89 | within the limit, the image passes iff its content type is allowed |
| ProfileRules.ProfileImageUrl | backend/gnm/profile/serializers.py:22-29 | no URL iff no image; with a request the URL is absolute, otherwise the media URL |
| ProfileRules.RequestOnlyPrependsOrigin | backend/gnm/profile/serializers.py:25-28 | with a request, the URL is the origin followed by the URL given without one |
| ProfileRules.Extension | backend/gnm/profile/models.py:8 | the longest dot-free tail of the file name, preceded by a dot unless it is the whole name |
| ProfileRules.ExtensionOfDotted | backend/gnm/profile/models.py:8 | the extension of `base.ext` is `ext` when it has no dot |
| ProfileRules.ExtensionWithoutDot | backend/gnm/profile/models.py:8 | a name without a dot is its own extension |
| ProfileRules.ImagePath | backend/gnm/profile/models.py:6-10 | the path lies in `profile_images/` and names the file `user_{id}_profile.{ext}` |
| ProfileRules.PathKeepsExtension | backend/gnm/profile/models.py:8-10 | the stored file keeps the upload's extension |
| ProfileRules.PathKeepsOnlyExtension | backend/gnm/profile/models.py:9 | nothing of the uploaded name but its extension reaches the path |
| ProfileRules.PathsOfUsersDiffer | backend/gnm/profile/models.py:9 | two saved users never share a path |
| ProfileRules.FullName | backend/gnm/profile/models.py:36-38 | "first last" without outer whitespace, or the username when that is empty |
| ProfileRules.BlankNamesGiveUsername | backend/gnm/profile/models.py:38 | both names blank gives the username |
| ProfileRules.OnlyFirstName | backend/gnm/profile/models.py:38 | only a first name gives it, with no trailing space |
| ProfileRules.OnlyLastName | backend/gnm/profile/models.py:38 | only a last name gives it, with no leading space |
| ProfileRules.CleanNamesJoined | backend/gnm/profile/models.py:38 | two clean names are joined by exactly one space |
| Journeys.ResetFormOpensIffLinkValid | frontend/gnm/src/pages/ResetPassword.tsx:58-67 | fed the validator's answer, the page opens the form exactly for links the back end calls valid |
| Journeys.OpenFormResets | backend/gnm/accounts/views.py:537-548 | on an open form, the page with the length counted in characters lets a password through iff the confirm view replaces it, and the page as written sends it |
| Journeys.AstralPasswordSentButRefused | frontend/gnm/src/pages/ResetPassword.tsx:105-121 | on an open form, a password of fewer than 8 characters but at least 8 UTF-16 units is sent, and the view answers 400 "too short" |
| Journeys.FourEmojiRefused | frontend/gnm/src/pages/ResetPassword.tsx:105 | four emoji are sent by the page and refused by the view |
| Journeys.AcceptedEmailNotBlank | frontend/gnm/src/pages/ForgotPassword.tsx:39-47 | an address the page's pattern accepts is never blank once the backend strips and lower-cases it (accounts/views.py:401-403) |
| Journeys.ForgotPageHidesAccounts | frontend/gnm/src/pages/ForgotPassword.tsx:50-69 | for any accepted address, store and mailer outcome, the page shows the sent state and the generic text |
| Journeys.ForgotPageSameForKnownAndUnknown | backend/gnm/accounts/views.py:409-414 | a registered and an unknown address produce the same page |
| Text.PyStrip | backend/gnm/profile/models.py:38 | Python `strip()`: the unique middle slice with only whitespace around it and no whitespace at its ends |
| Text.StripPaddedRight | backend/gnm/profile/models.py:38 | trailing whitespace does not change the strip |
| Text.StripPaddedLeft | backend/gnm/profile/models.py:38 | leading whitespace does not change the strip |
| Text.BlankIffAllSpace | backend/gnm/profile/serializers.py:46 | `not s.strip()` iff every character is whitespace |
| Text.Utf16Length | frontend/gnm/src/pages/ResetPassword.tsx:105 | JavaScript's `.length`: between `|s|` and `2|s|` UTF-16 units, equal to `|s|` iff no character lies beyond U+FFFF and to `2|s|` iff every one does |
| Text.Contains | frontend/gnm/src/pages/Admin.tsx:93-96 | `includes`: true iff the needle occurs at some index |
| Text.NatToStringInjective | backend/gnm/profile/models.py:9 | distinct ids render to distinct strings |
| Http.ErrorText | frontend/gnm/src/pages/Profile.tsx:130-132 | `detail`, then `message`, then the fallback, each only when non-empty |

## Left out

- Network, rendering, timing. Every axios call is a `Reply` input. JSX, toasts and `confirm()` become returned values. The 100 ms logout delay and the concurrent order of the two dashboard fetches are not modelled.
- Django infrastructure:
  - the ORM is an account sequence;
  - `send_mail` is the boolean `mailSent`;
  - JWT creation, password hashing, `default_token_generator` and uid decoding are parameters;
  - `build_absolute_uri` is modelled as prefixing the request's origin.
- Accounts.Register: the `IntegrityError` of a duplicate username is modelled as "the email is already someone's username". Registration sets the username to the email, and the store has no other constraint.
- Admin.SearchBookings and Admin.SearchUsers: lower-casing is ASCII-only. JavaScript's `toLowerCase` and Python's `lower` also fold other scripts.
- Identity.FirstUpper: upper-casing is ASCII-only. JavaScript's `toUpperCase` maps other letters too, and `'ß'` becomes `"SS"`, so a real initial can be longer than one character. Also, `charAt(0)` returns one UTF-16 code unit, which for a name starting beyond U+FFFF ("𝒜lice") is half a surrogate pair. A Dafny string cannot hold a lone surrogate, so the model takes the whole first character.
- Identity.Initials: the "one or two characters" bound holds for ASCII upper-casing only, and each initial is a whole character rather than the lone high surrogate `charAt(0)` gives for an astral first letter, for the reasons given for FirstUpper.
- ProfilePage.AvatarInitials: it reuses Identity.Initials and has the same ASCII-only limit.
- Accounts.NormalizeEmail: lower-casing is ASCII-only. Python's `lower` also maps `'É'` to `'é'` and lengthens `'İ'`, so "no longer than the input" and lookups of non-ASCII addresses hold for the ASCII case only.
- UriCodec.Decode: lengths are counted in Unicode scalars rather than UTF-16 code units. Lone surrogates cannot occur in a Dafny string.
- Text.PyStrip: the whitespace set is fixed to the characters Python's `str.isspace` accepts in the Basic Multilingual Plane and Latin-1.
- JavaScript `Date` parsing and time zones: dates are integer instants and "now" is a parameter.
- Bookings.PastPlusUpcoming, Admin.ComputeStats, History.Summarize: every `new Date()` read is taken as one instant. The pages read the clock once per booking and per filter (Admin.tsx:212-213, History.tsx:193 and 202), so a render across a booking's exact time could count it in both or neither. With one instant, "past plus upcoming is the total" holds by construction.
- `parseInt` yielding NaN in the dashboard's edit dialog (Admin.tsx:708): the guest count is taken as given.
- The social-login buttons' URL building and redirect (Login.tsx:119-130) and the Google token exchange (views.py:72-167) are network plumbing.
- `ProfileUpdateView.patch` in accounts/views.py is not routed and is not modelled.
- Django REST framework's own field checks beyond the username's trimming and uniqueness (trimming of the other `CharField`s, the 20-character phone column, the username's 150-character limit and character set, URL syntax) are not modelled; the other fields use only the hand-written validators.
- BookingRecord.Valid: only the `max_length` bounds are modelled. The `EmailField` syntax validator is not. Nor is the refusal of blank values: name, email, phone and event type have `blank=False` (backend/gnm/app1/models.py:15-18), so the derived serializer fields refuse an empty value, or one of only whitespace after trimming. Valid and Violations therefore accept records the serializer would refuse.
- Gallery: `closeLightbox` only sets the lightbox to `Closed`, a constructor of `Gallery.Lightbox`, and has no function of its own.
- ProfileRules.ValidateImage: a file's truthiness is reduced to a non-empty name.
- ProfileRules.ImagePath: `os.path.join` is modelled for a relative second part, which is always the case here because the stored name starts with `user_`.
- JSON bodies that are not strings where strings are expected (a numeric `detail`) are not modelled.
- Image deletion, middleware, signals, adapters, settings, URL configuration, the contact endpoint and the presentational pages are outside the modelled logic.

## Findings

| source | as written | input that shows it | evidently intended | confidence | as-written member | corrected member |
|---|---|---|---|---|---|---|
| frontend/gnm/src/pages/ResetPassword.tsx:105 | the page counts the new password in UTF-16 units (`.length`), while the confirm view (accounts/views.py:543) counts characters (`len`) | a valid link and the password of four emoji, confirmed: the page sees length 8 and sends it, the view sees length 4 and answers 400 "Password must be at least 8 characters long" | the page and the view count the same length, so a password the page sends is never refused as too short | not executed; high | Journeys.AstralPasswordSentButRefused | Journeys.OpenFormResets |
