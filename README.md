# Vacation booking site — a Dafny model of its core

The site lists vacation packages. A signed-in user can browse them, page through them,
filter them ("following", "not started yet", "active now") and follow or unfollow one. An
administrator can also create, edit and delete vacations, and can look at a per-vacation
followers report or download it as CSV.

The model covers both halves of the site:

- **Server.** The vacation handlers work over two tables: vacations, and the followers
  relation of (user, vacation) pairs. The authentication handlers work over the users
  table. The token middleware and the route table decide which middleware chain guards
  which handler.
- **Browser.** It covers the checks the sign-up, sign-in, add and edit pages run before
  they send a request. It also covers how the vacation list page and the admin page
  update their state, and what a vacation card shows and offers.

Each Dafny module follows one source file:

| module | file |
|---|---|
| `VacationListing` (read-only queries), `VacationsController` (`VacationStore` and its state-changing handlers) | `backend/src/controllers/vacationsController.ts` |
| `AuthController` (`UserStore`) | `backend/src/controllers/authController.ts` |
| `AuthMiddleware` | `backend/src/middleware/auth.ts` |
| `VacationRoutes` | `backend/src/routes/vacationRoutes.ts` |
| `AuthPages` | `frontend/src/pages/Register.tsx` and `Login.tsx` |
| `VacationForms` | `frontend/src/pages/AddVacation.tsx` and `EditVacation.tsx` |
| `VacationPages` | `frontend/src/pages/Vacations.tsx` and `Admin.tsx` |
| `VacationCard` | `frontend/src/components/VacationCard.tsx` |
| `Models`, `Followers` | the record shapes of `backend/src/models` and `frontend/src/types` |
| `Wrappers`, `Strings`, `Email`, `Sorting` | shared support |
| `Scenarios` | request sequences run against fresh tables |

## Representation

**Tables.** The vacations table is a `map<nat, Vacation>` keyed by the auto-increment id,
with the next id kept beside it. The followers table is a `seq<Follow>`. The users table is
a `seq<User>`. A table scan visits rows in ascending id order.

**Store class.** `VacationStore.Valid()` states the invariants the handlers keep:

- every row sits under its own id;
- every row satisfies the update checks (in particular, end is not before start);
- no follower pair occurs twice;
- every pair names a stored vacation.

**Replies.** A handler returns a `Reply`: a success status with a value, or an error status
with the `message` of its JSON body.

**Dates.**
- On the server, dates are day numbers and "today" is a parameter.
- In the browser forms, dates are the `YYYY-MM-DD` strings of the date inputs. They are
  compared as strings, as the pages compare them.
- The card's status badge works on instants in milliseconds, and "now" is a parameter. A
  date-only value is the instant that starts its day, as `new Date("YYYY-MM-DD")` reads it.

**Prices.** A price is an integer. The browser pages read the price text with `parseFloat`.
This is modelled as an optional sign followed by the leading decimal digits, with `None`
standing for NaN.

**Library calls.**
- bcrypt is outside the model. Registration receives the hash, and login receives the
  comparison as a function.
- Token signing and verification (JSON Web Tokens, RFC 7519) are a pair of functions,
  `JwtOracle`. `Sound` states the one property the lemmas rely on: a token verifies to the
  payload it was signed for and holds no space.

**Routes.** A route path is written as its list of segments.

**Browser requests.** A request the browser sends is represented by its outcome, which is a
parameter. A page keeps the requests it sent in a `sent` field and the place it navigated
to in `location`.

**Listing edge cases.** These follow the code:
- A page and limit whose offset `(page - 1) * limit` is negative, or a negative limit, makes
  the SQL statement invalid. The handler answers 500.
- A limit of 0 gives a `totalPages` of null, because JavaScript's `ceil(total / 0)` is not a
  finite number.
- The "following" filter without a signed-in caller selects every vacation.

## Model

| member | source | states |
|---|---|---|
| Wrappers.MessageOr | frontend/src/pages/Register.tsx:72 | the server's message is shown when the reply has a non-empty one, the fallback text otherwise |
| Email.EmailCheckMatchesPattern | backend/src/controllers/authController.ts:18-19 | the direct check (no whitespace, exactly one '@', non-empty local part, a '.' inside the domain that is neither first nor last) accepts exactly the strings `^[^\s@]+@[^\s@]+\.[^\s@]+$` matches |
| Followers.FollowerIds | backend/src/controllers/vacationsController.ts:44 | a user is among a vacation's distinct followers iff the (user, vacation) pair is in the table |
| Followers.RowCount | backend/src/controllers/vacationsController.ts:346 | the follower-row count of a vacation is zero iff no row names it, and is at most the table size |
| Followers.DistinctFollowersMatchRows | backend/src/controllers/vacationsController.ts:343-351 | without duplicate pairs, the report's `COUNT(f.userId)` equals the listing's `COUNT(DISTINCT f.userId)` |
| Followers.FollowerIdsAppend | backend/src/controllers/vacationsController.ts:302-305 | an inserted pair adds its user to its vacation's followers and changes no other vacation's |
| Followers.Keep | backend/src/controllers/vacationsController.ts:249 | a `DELETE ... WHERE` keeps exactly the rows the condition spares; it deletes nothing iff every row is spared; it keeps the table duplicate-free |
| Followers.KeepCounts | backend/src/controllers/vacationsController.ts:249 | a spared row stays as many times as the table holds it, and a deleted one is gone entirely |
| Followers.FollowThenUnfollowRestores | backend/src/controllers/vacationsController.ts:302-327 | inserting a new pair and then deleting it gives back the table |
| VacationListing.Rows | backend/src/controllers/vacationsController.ts:43-48 | every scanned row is the stored row under its id, and the scan runs in strictly ascending id order |
| VacationListing.RowsComplete | backend/src/controllers/vacationsController.ts:43-48 | the scan misses no stored row |
| VacationListing.Matching | backend/src/controllers/vacationsController.ts:26-32 | a row is selected iff it is stored and the filter's WHERE clause holds for it |
| VacationListing.ToItems | backend/src/controllers/vacationsController.ts:40-48 | each item carries its vacation's distinct-follower count and whether the caller follows it |
| VacationListing.PageOf | backend/src/controllers/vacationsController.ts:50-52 | `LIMIT l OFFSET o` returns at most `l` rows, exactly the rows from position `o` on, and none when `o` is past the end |
| VacationListing.CeilDiv | backend/src/controllers/vacationsController.ts:61 | the page count is the fewest pages of `limit` rows that hold `total` rows |
| VacationListing.TotalPages | backend/src/controllers/vacationsController.ts:61 | `totalPages` is null exactly when the limit is 0 |
| VacationListing.MatchingCountsMatchingIds | backend/src/controllers/vacationsController.ts:35-48 | with every stored id below the next auto-increment id, the scan selects exactly as many rows as there are stored vacations the filter selects |
| VacationListing.OrderedItems | backend/src/controllers/vacationsController.ts:40-52 | the items sorted by start date, one per stored vacation the filter selects, each a listed vacation, and every stored vacation the filter selects present |
| VacationListing.ListVacations | backend/src/controllers/vacationsController.ts:17-67 | page and limit default to 1 and 10; success iff offset and limit are non-negative, else 500; the page is the offset/limit slice of the ordered items; total is the number of stored vacations the filter selects; totalPages is `ceil(total/limit)` |
| VacationListing.PageBeyondLastIsEmpty | backend/src/controllers/vacationsController.ts:50-61 | a page after the last one is an empty list, not an error |
| VacationListing.OffsetPastLastPage | backend/src/controllers/vacationsController.ts:21 | the offset of a page after `ceil(total/limit)` is at least `total` |
| VacationListing.FirstPageListsEveryMatch | backend/src/controllers/vacationsController.ts:35-52 | a first page whose limit covers the total lists every stored vacation the filter selects |
| VacationListing.FollowingWithoutCallerIsUnfiltered | backend/src/controllers/vacationsController.ts:26-27 | "following" without a caller id leaves the rows unfiltered |
| VacationListing.NotStartedAndActiveExclusive | backend/src/controllers/vacationsController.ts:28-31 | "notStarted" and "active" never select the same vacation |
| VacationListing.NoCallerFollowsNothing | backend/src/controllers/vacationsController.ts:45 | without a caller no item is marked as followed |
| VacationListing.GetVacationById | backend/src/controllers/vacationsController.ts:69-98 | 404 iff the id is not stored; otherwise the row with its distinct-follower count and whether the caller follows it |
| VacationListing.ListedItemMatchesById | backend/src/controllers/vacationsController.ts:74-93 | every listed item is exactly what fetching that vacation by id returns |
| VacationListing.ReportRows | backend/src/controllers/vacationsController.ts:343-349 | one report row per scanned vacation, with its destination and follower-row count |
| VacationListing.Report | backend/src/controllers/vacationsController.ts:341-358 | the report is a permutation of the per-vacation rows, ordered by non-increasing follower count |
| VacationListing.ReportHasOneRowPerVacation | backend/src/controllers/vacationsController.ts:349 | the report has exactly one row per stored vacation (grouped by id, not merged by destination) |
| VacationListing.ReportCountsDistinctFollowers | backend/src/controllers/vacationsController.ts:346 | with duplicate-free followers, a report row's count is the vacation's distinct-follower count |
| VacationListing.CsvTextAppend | backend/src/controllers/vacationsController.ts:373-375 | appending a report row appends exactly its line `destination,count\n` to the export |
| VacationListing.RowTextRoundTrip | backend/src/controllers/vacationsController.ts:374 | a row whose destination has no comma or line break reads back from its CSV line |
| VacationListing.CsvRoundTrip | backend/src/controllers/vacationsController.ts:372-375 | the export has rows + 1 lines plus the empty rest after the last line break, and reads back into exactly the report rows when no destination holds a comma or line break |
| VacationListing.CommaInDestinationIsAmbiguous | backend/src/controllers/vacationsController.ts:374 | values are not quoted as section 2 of RFC 4180 requires: a destination with a comma gives a line that does not read back as two fields |
| VacationsController.ValidateUpdate | backend/src/controllers/vacationsController.ts:166-182 | the update checks pass iff all fields are present, the price is in [0, 10000] and the end is not before the start; a missing field, an out-of-range price and an end before the start each give their own message, in that order |
| VacationsController.ValidateCreate | backend/src/controllers/vacationsController.ts:105-128 | the create checks pass iff additionally the start is not before today; a missing field, an out-of-range price, a past start and an end before the start each give their own message, in that order |
| VacationsController.CreateIsUpdateWithoutPastStart | backend/src/controllers/vacationsController.ts:105-128 | a create body passes iff the update checks pass and the start is not in the past; fields and price failures give the same message on both |
| VacationsController.UpdateAcceptsPastStart | backend/src/controllers/vacationsController.ts:176-182 | an update accepts a past start date that a create refuses |
| VacationsController.RowOf | backend/src/controllers/vacationsController.ts:139-142 | the row a valid body describes satisfies the row invariant (price in range, end not before start) |
| VacationsController.DiscardedImage | backend/src/controllers/vacationsController.ts:200 | a replaced or deleted image file is removed iff it is not "default.jpg" |
| VacationsController.VacationStore.Create | backend/src/controllers/vacationsController.ts:100-158 | 400 with the first failing check's message and no change; otherwise one new row under the next id, image "default.jpg" without an upload, follower count 0, invariant kept |
| VacationsController.VacationStore.Update | backend/src/controllers/vacationsController.ts:160-231 | validation before lookup (400 first, then 404); on success only that row changes, keeping the old image without an upload and discarding it unless default when replaced |
| VacationsController.VacationStore.Delete | backend/src/controllers/vacationsController.ts:233-268 | 404 and no change for an unknown id; otherwise every follower pair of the vacation and the row itself are removed, nothing else changes, and the image is discarded unless default |
| VacationsController.VacationStore.FollowVacation | backend/src/controllers/vacationsController.ts:270-312 | 401 without a caller, 404 for an unknown vacation, 409 for an existing pair, all without change; otherwise 201 and exactly that pair added, so pairs stay unique |
| VacationsController.VacationStore.UnfollowVacation | backend/src/controllers/vacationsController.ts:314-339 | 401 without a caller, 404 when the pair is absent (whatever the vacation), both without change; otherwise exactly that pair removed |
| VacationsController.VacationStore.DownloadCsv | backend/src/controllers/vacationsController.ts:360-384 | the file is the CSV text of the followers report |
| VacationsController.WriteCsv | backend/src/controllers/vacationsController.ts:372-375 | the header line followed by one appended line per row builds exactly the CSV text of the rows |
| AuthMiddleware.GenerateToken | backend/src/middleware/auth.ts:38-44 | the token signs the five public user fields, so verifying it yields that user |
| AuthMiddleware.BearerToken | backend/src/middleware/auth.ts:14-19 | a token exists iff the header starts with "Bearer "; it is the second space-separated field |
| AuthMiddleware.BearerTokenOfHeader | backend/src/middleware/auth.ts:19 | a "Bearer " header carrying a token without spaces yields exactly that token |
| AuthMiddleware.Authenticate | backend/src/middleware/auth.ts:11-28 | a missing or non-bearer header gives "Access denied. No token provided."; otherwise the request is authenticated iff the token verifies, as the decoded user; a bearer token that fails to verify gives "Invalid token." |
| AuthMiddleware.IssuedTokenAuthenticates | backend/src/middleware/auth.ts:38-44 | a bearer header with a freshly issued token authenticates as its user |
| AuthMiddleware.VerifyAdmin | backend/src/middleware/auth.ts:30-36 | the request goes on iff a user is attached and has the admin role; otherwise 403 |
| AuthMiddleware.AuthRequest.constructor | backend/src/middleware/auth.ts:5-7 | a request starts with no user attached |
| AuthMiddleware.AuthRequest.VerifyToken | backend/src/middleware/auth.ts:11-28 | on a verified token the user is attached and the request goes on; otherwise 401 with the reason and the user field is left as it was |
| AuthController.ValidateRegistration | backend/src/controllers/authController.ts:13-27 | registration input passes iff no field is empty, the email matches the pattern and the password has at least 4 characters; an empty field, an invalid email and a short password each give their own message, in that order |
| AuthController.ValidateCredentials | backend/src/controllers/authController.ts:67-82 | login input passes iff both fields are present, the email matches the pattern and the password has at least 4 characters; an empty field, an invalid email and a short password each give their own message, in that order |
| AuthController.FindByEmail | backend/src/controllers/authController.ts:84-95 | the lookup finds a user with that email iff one exists |
| AuthController.CheckEmail | backend/src/controllers/authController.ts:120-134 | `exists` iff some user row has the email |
| AuthController.Login | backend/src/controllers/authController.ts:63-118 | 400 for bad input; success iff the email is known and the password matches, returning the row without its password and a token for it; every other failure is the same 401 |
| AuthController.LoginFailuresIndistinguishable | backend/src/controllers/authController.ts:90-101 | an unknown email and a wrong password get the identical reply |
| AuthController.UserStore.Register | backend/src/controllers/authController.ts:8-61 | 400 for bad input and 409 for a known email, both without change; otherwise one row with role "user" and the hashed password, reply 201 with the row's public fields and its token; emails stay unique |
| AuthController.LoginAfterRegister | backend/src/controllers/authController.ts:84-113 | after a registration, the same email and password log in as the new user |
| VacationRoutes.FirstMatch | backend/src/routes/vacationRoutes.ts:18-30 | the first route at or after a position that matches, or none matches |
| VacationRoutes.Dispatch | backend/src/routes/vacationRoutes.ts:18-30 | a request reaches the earliest registered matching route, or none when no route matches |
| VacationRoutes.Router.constructor | backend/src/routes/vacationRoutes.ts:15 | a new router has no routes |
| VacationRoutes.Router.Register | backend/src/routes/vacationRoutes.ts:18-30 | a registration appends one route |
| VacationRoutes.VacationRouteTable | backend/src/routes/vacationRoutes.ts:18-30 | the nine routes, in registration order |
| VacationRoutes.BuildVacationRouter | backend/src/routes/vacationRoutes.ts:15-32 | the nine registrations build exactly the route table |
| VacationRoutes.EveryRouteIsGuarded | backend/src/routes/vacationRoutes.ts:18-30 | every route runs verifyToken first; report, csv, create, update and delete then run verifyAdmin, the others nothing more |
| VacationRoutes.RunChain | backend/src/routes/vacationRoutes.ts:18-30 | running a middleware chain halts only with 401 or 403 |
| VacationRoutes.HandlerReachedIffAuthorized | backend/src/routes/vacationRoutes.ts:18-30 | a handler is reached iff the token verifies and, for the admin handlers, the user is an administrator; it then sees the verified user |
| VacationRoutes.LiteralPathsShadowIdParameter | backend/src/routes/vacationRoutes.ts:19-21 | GET /report and GET /csv reach their own handlers; any other single segment reaches getVacationById |
| AuthPages.LocalRegisterCheck | frontend/src/pages/Register.tsx:21-39 | the local checks pass iff no field is empty, the email is valid, the password has at least 4 characters and equals the confirmation; an empty field, an invalid email, a short password and a mismatched confirmation each give their own message, in that order |
| AuthPages.ValidateRegisterForm | frontend/src/pages/Register.tsx:18-54 | the form is accepted iff the local checks pass and the lookup says the email is free; a taken email and a failed lookup each give their message |
| AuthPages.LookupOnlyAfterLocalChecks | frontend/src/pages/Register.tsx:41-51 | the lookup's answer never changes the result for a form the local checks reject |
| AuthPages.AcceptedFormPassesServerChecks | frontend/src/pages/Register.tsx:18-54 | a form the page accepts passes the server's register checks, and its email is free on the server when the lookup answered truthfully |
| AuthPages.RegisterPage.constructor | frontend/src/pages/Register.tsx:8-14 | the page starts with no error, not loading, nothing sent |
| AuthPages.RegisterPage.HandleSubmit | frontend/src/pages/Register.tsx:56-76 | a request is sent only for a valid form; success goes to /vacations, failure shows the message; `loading` ends false on every path |
| AuthPages.ValidateLoginForm | frontend/src/pages/Login.tsx:15-34 | the form passes iff both fields are filled, the email is valid and the password has at least 4 characters; an empty field, an invalid email and a short password each give their own message, in that order |
| AuthPages.LoginFormAgreesWithServer | frontend/src/pages/Login.tsx:15-34 | the page accepts exactly the credentials the server's checks accept |
| AuthPages.LoginRedirect | frontend/src/pages/Login.tsx:46 | an administrator goes to /admin, anyone else to /vacations |
| AuthPages.SubmitLogin | frontend/src/pages/Login.tsx:36-52 | a request is sent iff the form is valid; a redirect happens iff the request was sent and succeeded, to the role's page; a rejected request shows the server's message or "Login failed. Please try again." |
| VacationForms.ValidateAddForm | frontend/src/pages/AddVacation.tsx:28-51 | accepted iff filled, price not out of range, start not before today, end not before start; each failing check gives its own message, the first in that order winning |
| VacationForms.ValidateEditForm | frontend/src/pages/EditVacation.tsx:49-67 | the same checks without the past-start check, with its own empty-field message; an end before the start gives the date-order message |
| VacationForms.AddIsEditWithoutPastStart | frontend/src/pages/AddVacation.tsx:28-51 | the add form accepts exactly what the edit form accepts with a start not before today |
| VacationForms.PriceBoundsAccepted | frontend/src/pages/AddVacation.tsx:34-38 | prices 0 and 10000 pass the range check (both bounds inclusive) |
| VacationForms.PricesOutsideBoundsRefused | frontend/src/pages/AddVacation.tsx:34-38 | prices -1 and 10001 fail the range check |
| VacationForms.NonNumericPricePasses | frontend/src/pages/AddVacation.tsx:34-38 | a price that does not start with a number (NaN) passes the range check on both forms |
| VacationForms.DatePart | frontend/src/pages/EditVacation.tsx:27-28 | the day part is a prefix of the timestamp without 'T', ends at the first 'T', and is the whole input when it has none |
| VacationForms.DatePartIdempotent | frontend/src/pages/EditVacation.tsx:27-28 | truncating twice is truncating once |
| VacationForms.FormOf | frontend/src/pages/EditVacation.tsx:25-29 | the loaded form keeps the texts, sets each date to its `split('T')[0]` day part (a 'T'-free prefix of the timestamp) and renders the price so that it parses back to the stored price |
| VacationForms.LoadedPriceInRangePasses | frontend/src/pages/EditVacation.tsx:29 | a stored price within the bounds passes the form's price check |
| VacationForms.FormParts | frontend/src/pages/AddVacation.tsx:61-69 | the five fields in order, then the image iff one was chosen |
| VacationForms.FormData.Append | frontend/src/pages/AddVacation.tsx:62 | an append adds one part at the end |
| VacationForms.BuildFormData | frontend/src/pages/AddVacation.tsx:61-69 | the appends build exactly the form's parts |
| VacationForms.AddVacationPage.constructor | frontend/src/pages/AddVacation.tsx:7-15 | the page starts with no error, not loading, nothing sent |
| VacationForms.AddVacationPage.HandleSubmit | frontend/src/pages/AddVacation.tsx:53-78 | an invalid form shows its message and sends nothing; a valid one sends its parts, then goes to /admin or shows the server's message |
| VacationForms.EditVacationPage.constructor | frontend/src/pages/EditVacation.tsx:8-18 | the page starts empty and fetching |
| VacationForms.EditVacationPage.Load | frontend/src/pages/EditVacation.tsx:21-39 | the form is filled from the loaded vacation, or the load error is shown; fetching ends either way |
| VacationForms.EditVacationPage.HandleSubmit | frontend/src/pages/EditVacation.tsx:69-94 | an invalid form shows its message and sends nothing; a valid one sends the id and its parts, the image only when a new file was chosen |
| VacationPages.MarkFollowed | frontend/src/pages/Vacations.tsx:36-40 | only the entries with the id change, to followed with one more follower; the length is kept |
| VacationPages.MarkUnfollowed | frontend/src/pages/Vacations.tsx:49-53 | only the entries with the id change, to not followed with one follower fewer |
| VacationPages.FollowThenUnfollowRestoresList | frontend/src/pages/Vacations.tsx:36-53 | following an unfollowed entry and then unfollowing it restores the list |
| VacationPages.OptimisticFollowMatchesServer | frontend/src/pages/Vacations.tsx:36-40 | the entry shown after a follow is what the server lists once the pair is stored |
| VacationPages.OptimisticUnfollowMatchesServer | frontend/src/pages/Vacations.tsx:49-53 | the entry shown after an unfollow is what the server lists once the pair is deleted |
| VacationPages.NextFilter | frontend/src/pages/Vacations.tsx:60 | the filter is cleared iff the selected one is already active (or empty), and set to the selected one otherwise |
| VacationPages.FilterToggleTwiceRestores | frontend/src/pages/Vacations.tsx:59-62 | selecting the same filter twice returns to the original filter |
| VacationPages.VacationsPage.constructor | frontend/src/pages/Vacations.tsx:9-12 | the page starts on page 1 without a filter |
| VacationPages.VacationsPage.HandleFollow | frontend/src/pages/Vacations.tsx:33-44 | the list is marked followed when the request succeeds and left unchanged when it fails |
| VacationPages.VacationsPage.HandleUnfollow | frontend/src/pages/Vacations.tsx:46-57 | the list is marked unfollowed when the request succeeds and left unchanged when it fails |
| VacationPages.VacationsPage.HandleFilterChange | frontend/src/pages/Vacations.tsx:59-62 | the filter toggles and the page resets to 1 |
| VacationPages.RemoveId | frontend/src/pages/Admin.tsx:46 | exactly the entries with another id remain, nothing else changes when none has the id |
| VacationPages.RemoveIdAppend | frontend/src/pages/Admin.tsx:46 | removing from a joined list is removing from each part, so the remaining entries keep their order |
| VacationPages.RemoveIdSingle | frontend/src/pages/Admin.tsx:46 | a single entry stays exactly when its id differs; with RemoveIdAppend this pins `filter(v => v.id !== id)` |
| VacationPages.RemoveIdIdempotent | frontend/src/pages/Admin.tsx:46 | removing an id twice removes nothing more |
| VacationPages.AdminPage.constructor | frontend/src/pages/Admin.tsx:10-14 | no confirmation pending, no delete sent |
| VacationPages.AdminPage.HandleDelete | frontend/src/pages/Admin.tsx:38-51 | a first click only asks for confirmation; a click on the pending id sends the delete, and on success removes that vacation and closes the confirmation; a failed delete changes nothing |
| VacationPages.AdminPage.Cancel | frontend/src/pages/Admin.tsx:80-83 | the confirmation closes |
| VacationCard.GetStatus | frontend/src/components/VacationCard.tsx:31-39 | Upcoming iff now is before the start, Ended iff after the end (and not before the start), Active Now iff between them |
| VacationCard.CardUpcomingAgreesWithFilter | frontend/src/components/VacationCard.tsx:31-36 | at every instant of a day, the badge says Upcoming exactly for the vacations the "notStarted" filter selects that day |
| VacationCard.CardEndsDuringLastDay | frontend/src/components/VacationCard.tsx:31-37 | after the first instant of a vacation's last day the badge says Ended, while the "active" filter of that day still selects the vacation |
| VacationCard.IntendedBadgeAgreesWithFilters | frontend/src/components/VacationCard.tsx:31-38 | with the end read as the end of its day, at every instant of a day the badge says Active Now exactly for "active", Upcoming exactly for "notStarted", and Ended exactly when the vacation started and its end day is past |
| VacationCard.FollowButton | frontend/src/components/VacationCard.tsx:73-81 | a followed vacation's button unfollows and is labelled so; any other follows |
| VacationCard.CardButtons | frontend/src/components/VacationCard.tsx:71-100 | without the admin flag only the follow button, with it only edit and delete |
| VacationCard.ButtonsByRole | frontend/src/components/VacationCard.tsx:15-17 | an absent `isAdmin` behaves as false; administrators never get a follow button and others never get edit or delete |
| VacationCard.ButtonFlipsAfterFollow | frontend/src/components/VacationCard.tsx:74-80 | after a successful follow the entry's card offers unfollow, and after an unfollow it offers follow |
| Scenarios.FollowLifecycle | backend/src/controllers/vacationsController.ts:100-312 | create gives 201 with no followers, follow gives 201, the read shows it followed with one follower, delete gives 200, the next read gives 404 |
| Scenarios.RepeatedFollow | backend/src/controllers/vacationsController.ts:270-339 | a follow succeeds, its repeat gets 409, an unfollow succeeds, and the follow then succeeds again |
| Scenarios.PriceBoundaryOnCreate | backend/src/controllers/vacationsController.ts:110-113 | price 10001 gives 400 with the price message; price 10000 is stored |
| Scenarios.RegisterTwice | backend/src/controllers/authController.ts:29-56 | the first registration succeeds with a token that verifies to the returned user; the second gets 409 |

## Findings

| source | as written | input that shows it | evidently intended | confidence | as-written member | corrected member |
|---|---|---|---|---|---|---|
| frontend/src/components/VacationCard.tsx:34-37 | `end` is `new Date(vacation.endDate)`, the first instant of the end day, and the badge says Ended once `now > end` | a vacation starting and ending on day d, viewed at any instant of day d after its first millisecond | Active Now through the whole end day, as the server's "active" filter (backend/src/controllers/vacationsController.ts:31) selects it all that day | medium; not executed | VacationCard.CardEndsDuringLastDay | VacationCard.IntendedBadgeAgreesWithFilters |

## Left out

- Image files are not modelled: storing, moving and unlinking them, the uploads directory,
  and the uuid-based file names. An upload is the stored file name passed in, and the file
  a handler would delete is returned as `removedImage`.
- bcrypt hashing and comparison are outside the model. So are signing and verifying JSON
  Web Tokens, the secret and the 24-hour expiry. Properties that need the token library
  assume `Sound`.
- The MySQL pool, async/await, the HTTP response plumbing and the 500 replies of every
  handler except the listing's invalid offset are not modelled. SQL statements are modelled
  by what they select or change, not by their text.
- Tie order is not modelled for `ORDER BY startDate` and `ORDER BY followersCount DESC`.
  The model uses one stable sort, which is one legal answer of the database.
- Date parsing, `toISOString`, time zones, `setHours` and locale formatting are not
  modelled. Dates are day numbers on the server and `YYYY-MM-DD` strings in the forms, and
  "today"/"now" are parameters.
- VacationForms.PriceOutOfRange: `parseFloat` is modelled for integers only. Fractions,
  exponents, leading whitespace and "Infinity" are not read.
- Prices are integers. `price.toLocaleString` and floating-point prices are not modelled.
- `req.query` values that are not numbers, such as `page=abc` (NaN), are not modelled;
  page and limit are integers or absent. Path ids are naturals.
- Lengths and string order are over `char` sequences, not UTF-16 code units.
- AuthController.FindByEmail: emails are compared by exact string equality. `WHERE email = ?`
  compares under the column's collation, and MySQL's default collation ignores case and
  accents. The table schema is not part of this model. So the model does not capture that
  "A@x.com" logs in as, and cannot register beside, "a@x.com". The same holds for
  AuthController.CheckEmail and AuthController.UserStore.Register.
- Keep: the order of the kept rows is not stated. The followers table has no row order, and
  no query of the model depends on it.
- The browser's AuthContext login, the token kept in local storage, the axios client
  (`frontend/src/services/api.ts`) and navigation internals are not modelled. Navigation
  appears only as the page's `location`.
- The Reports page, `App.tsx`, the navigation bar and `authRoutes.ts` are not modelled.
  They hold rendering, client routing and three unguarded registrations, none of which
  has behaviour worth stating.
- Express's parsing of path strings is not modelled; routes are given as segments.
- Concurrency is not modelled: interleaved requests, such as two follows of the same pair
  racing, and the non-atomic delete of follower rows then the vacation row. Each handler
  runs alone on the tables.
- The vacation list page's fetch effect and pagination controls are not modelled. The
  admin page's list loading and its edit navigation are not modelled either.
