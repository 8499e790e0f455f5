# devTinder front end: the decision rules inside the components

This project models, in Dafny, the small pure rules that the React front end of the
devTinder matching app keeps inside its components, and proves properties of them:

- the login / sign-up form: the per-field validator (`validateForm`), the email pattern
  `^\S+@\S+\.\S+$`, what `handleSubmit` sends and how it settles, and the mode toggle;
- the two skills-string normalisations (sign-up: split and trim, keeping empty pieces;
  profile editor: split, trim and drop empty pieces) and their round trips with
  `join(", ")`;
- the profile editor: field seeding from the stored user, edit, cancel, the PATCH payload
  and the settle of an update;
- the received-request card: guarded initials, gender label, skills default, avatar
  choice, skill-chip keys, the accept / decline path and its success-only `onUpdate`;
- the received-requests and connections pages: a tri-state list loader
  (list, loading, error), its settle on success or failure, the view precedence, and the
  id-keyed removal a card's decision triggers;
- the feed page: `addFeed(data || [])` on success, nothing on failure, only the head shown;
- the connection card: its unguarded initials and subtitle, whose preconditions are made
  explicit.

Every network call is an abstract `Remote.Outcome`: `Success(body)` or
`Failure(HttpError(serverMessage, message))`, where the two messages stand for
`err.response?.data?.message` and `err.message`. JavaScript's `||` on strings is modelled
by `Remote.Truthy` (present and non-empty), so an empty server message falls through to
the next candidate exactly as in the source.

Modules: `Wrappers` (Option), `Strings` (trim, split on one character, join, ASCII upper
case, decimal rendering), `Records` (the profile and request records), `Remote`,
`Loader`, `Skills`, `LoginForm`, `ProfileEdit`, `RequestCard`, `ReceivedRequests`,
`Connections`, `ConnectionCard`, `Feed`.

Behaviour of the code that a reader might not expect, which the model keeps:

- A successful fetch does not clear an error, and Retry re-runs the same fetch without
  resetting `loading` or `error`; see Findings.
- The connections page shows `err.message || "Failed to fetch connections"`; the server's
  message is never read, unlike the other pages.
- The connection card does not degrade on empty names: an empty first or last name
  renders as the text `undefined` in place of its letter, and an absent name or an empty
  gender makes the card throw.
- Removal from the feed by id is not in the feed page's code (its card buttons have no
  handlers), so only the received-requests list has an id removal here.

## Model

| member | source | states |
|---|---|---|
| LoginForm.MatchEmail | src/components/Login.jsx:57 | a single scan returns true exactly when the email matches `^\S+@\S+\.\S+$` (no white space; an `@` with one or more characters before it, then one or more characters, a `.`, and one or more characters after it) |
| LoginForm.EmailFromParts | src/components/Login.jsx:57 | any three non-empty white-space-free parts joined as user@host.tld match the pattern |
| LoginForm.IsEmail | src/components/Login.jsx:57 | a matching email has at least five characters, an `@` after the first character and before the last three, and a `.` from the fourth character on with one character after it |
| LoginForm.FieldRule | src/components/Login.jsx:47-62 | each field's rule passes exactly when the field is acceptable in its mode: sign-up names and gender non-empty, age a number in [13, 120], a matching email, a password of at least 8 characters; login mode never checks the sign-up fields |
| LoginForm.Validate | src/components/Login.jsx:44-66 | in login mode only email and password can carry errors; the email has an error iff it does not match the pattern; the password has one iff it is shorter than 8 characters |
| LoginForm.ValidIffAcceptable | src/components/Login.jsx:44-66 | `validateForm` returns true iff the error map is empty iff the form meets every rule of its mode, stated field by field |
| LoginForm.LoginIgnoresSignupFields | src/components/Login.jsx:47-54 | in login mode the error map depends only on email and password: missing names, age or gender never yield an error |
| LoginForm.SignupRequiredMessages | src/components/Login.jsx:48-49 | in sign-up mode first name, last name and gender each carry their "required" message exactly when empty (line 53 for gender); login mode never reports them |
| LoginForm.EmailMessages | src/components/Login.jsx:56-58 | an empty email gives "Email is required", a non-empty non-matching one "Email is invalid", a matching one no message |
| LoginForm.PasswordMessages | src/components/Login.jsx:60-62 | an empty password gives "Password is required", 1 to 7 characters the length message, exactly 8 none |
| LoginForm.AgeMessages | src/components/Login.jsx:50-52 | in sign-up mode an empty age gives "Age is required", a non-number or a value outside [13, 120] the range message, and both 13 and 120 pass |
| LoginForm.OnSkillsInput | src/components/Login.jsx:35-41 | the skills handler changes only `skills`, to the sign-up split of the input (its trimmed comma-separated pieces, one more than there are commas); "" gives [""] |
| LoginForm.ApiErrorMessage | src/components/Login.jsx:88 | the API error is the server message when truthy, else "Something went wrong" |
| LoginForm.RequestFor | src/components/Login.jsx:76-79 | login posts exactly the email and password to /login; sign-up posts the whole form to /signup |
| LoginForm.Submit | src/components/Login.jsx:69-90 | the error map becomes the validator's; nothing is sent unless the form is acceptable, and then the mode's request; the response's user is stored only after a sent request succeeds; the API error is set exactly after a sent request fails, to the server message or "Something went wrong" |
| LoginForm.InvalidFormIgnoresOutcome | src/components/Login.jsx:73 | an invalid form sends nothing, so the outcome of a call cannot change the result, and the error map is non-empty |
| LoginForm.LoginSendsOnlyCredentials | src/components/Login.jsx:76-79 | in login mode two forms with the same email and password send the same request |
| LoginForm.ToggleMode | src/components/Login.jsx:253-257 | the toggle flips the mode, clears the field errors and the API error, and keeps the form |
| LoginForm.ToggleTwice | src/components/Login.jsx:253-257 | toggling twice restores the mode with the messages cleared |
| Strings.TrimIsInfix | src/components/Login.jsx:39 | `skill.trim()` keeps a contiguous part of the skill with only white space before and after it |
| Strings.TrimUnique | src/components/Login.jsx:39 | that part is determined: any trimmed infix with only white space around it is the result of `trim` |
| Strings.TrimSpaceSuffix | src/components/Login.jsx:39 | a white-space character at the end never survives `trim` |
| Skills.TrimAllPointwise | src/components/Login.jsx:39 | `.map((skill) => skill.trim())` trims each piece in place |
| Skills.SplitTrim | src/components/Login.jsx:39 | the sign-up split gives one piece more than there are commas, each trimmed and comma-free |
| Skills.SplitTrimSegments | src/components/Login.jsx:39 | each piece of the sign-up split is the comma-separated segment at its position, trimmed |
| Skills.SplitTrimTrailingSpace | src/components/Login.jsx:195 | a white-space character typed at the end leaves the split unchanged, so the input, which shows the ", "-join of the list, drops it on the same keystroke |
| Skills.SplitTrimEmpty | src/components/Login.jsx:39 | the empty input splits into one empty skill |
| Skills.SplitTrimConcat | src/components/Login.jsx:39 | each comma starts a new piece: the split of a + "," + b is the split of a followed by the split of b |
| Skills.SplitTrimJoinRoundTrip | src/components/Login.jsx:195 | the displayed `skills.join(", ")` splits back into the same list whenever the skills are trimmed and comma-free, empty ones included |
| Skills.SplitTrimStable | src/components/Login.jsx:195 | display-then-split is a fixed point of the sign-up form's skills input |
| Skills.Normalize | src/components/Profile.jsx:62-72 | a list is sent unchanged; a string yields only non-empty, trimmed, comma-free skills; "" yields [] |
| Skills.NormalizeIsSplitTrimWithoutEmpties | src/components/Profile.jsx:66-71 | the profile normalisation of a string is the sign-up split with the empty pieces removed |
| Skills.NormalizeMembers | src/components/Profile.jsx:66-71 | a non-empty string normalises to exactly its non-empty trimmed comma-separated segments |
| Skills.NormalizeBlank | src/components/Profile.jsx:66-71 | a string of only commas and white space normalises to no skills |
| Skills.NormalizeJoinRoundTrip | src/components/Profile.jsx:66-71 | clean skills joined with ", " normalise back to the same list |
| Skills.NormalizeStable | src/components/Profile.jsx:66-71 | normalising the ", "-join of a normalised list returns that list |
| ProfileEdit.TextOf | src/components/Profile.jsx:14-19 | a text field starts as the user's value, or "" when the user or the field is absent |
| ProfileEdit.AgeOf | src/components/Profile.jsx:16 | the age field holds the stored age when it is present and non-zero, else "" |
| ProfileEdit.InitialFields | src/components/Profile.jsx:14-19 | the first render shows the stored values, "" where absent (age also for 0), and the skills as their ", "-joined text |
| ProfileEdit.StoredFields | src/components/Profile.jsx:24-29 | the effect and cancel show the same five values, but the skills as the stored list itself, or "" when absent (also lines 39-44) |
| ProfileEdit.InitialAndStoredAgree | src/components/Profile.jsx:14-29 | the initial seeding and the store sync agree on every field but skills |
| ProfileEdit.Mount | src/components/Profile.jsx:13-21 | the first state: not editing, not loading, no error, fields seeded from the user |
| ProfileEdit.SyncFromStore | src/components/Profile.jsx:23-30 | the effect re-seeds the fields from the stored user and changes nothing else |
| ProfileEdit.MountedFields | src/components/Profile.jsx:13-30 | after the first render and its effect, the fields are the stored ones, so the skills field holds the stored list, not its joined text |
| ProfileEdit.StartEdit | src/components/Profile.jsx:32-35 | edit turns editing on and clears the error, nothing else |
| ProfileEdit.CancelEdit | src/components/Profile.jsx:37-45 | cancel turns editing off and restores all six fields from the stored user, keeping user, loading and error |
| ProfileEdit.CancelDiscardsEdits | src/components/Profile.jsx:37-45 | whatever was typed, cancelling gives the same fields: the stored values, or "" when absent |
| ProfileEdit.PayloadOf | src/components/Profile.jsx:52-76 | the PATCH body carries the five text fields verbatim and the skills normalised: a list unchanged, a string as its split, trimmed pieces without the empty ones |
| ProfileEdit.UneditedSaveKeepsSkills | src/components/Profile.jsx:63-64 | after the store sync, saving without edits sends back the stored skills list (or none) |
| ProfileEdit.InitialSaveKeepsCleanSkills | src/components/Profile.jsx:18-71 | for clean stored skills the first render's joined text and the effect's list give the same payload, so the effect replacing one by the other never changes what a save sends |
| ProfileEdit.UpdateErrorMessage | src/components/Profile.jsx:87-90 | the update error is the server message, else `err.message`, else the generic text |
| ProfileEdit.BeginUpdate | src/components/Profile.jsx:47-59 | submitting turns loading on and clears the error, keeping user, editing and fields, and builds the payload from the fields |
| ProfileEdit.FinishUpdate | src/components/Profile.jsx:82-95 | a success replaces the stored user and ends editing; a failure keeps both and shows the message; loading ends false either way |
| ProfileEdit.UpdateOutcome | src/components/Profile.jsx:47-95 | after a whole update no error remains on success and the synced fields show the saved user; a failure leaves a non-empty error and the old user |
| RequestCard.FirstLetter | src/components/ReceivedRequestCard.jsx:14-15 | `s?.[0] \|\| ""` is at most one character, empty iff the name is absent or empty |
| RequestCard.Initials | src/components/ReceivedRequestCard.jsx:14-16 | initials are at most two upper-cased letters, the first letters of the names that are present and non-empty; "" when neither is |
| RequestCard.GenderLabel | src/components/ReceivedRequestCard.jsx:117 | the gender label is the upper-cased first letter, or "" when the gender is absent or empty |
| RequestCard.SkillsOf | src/components/ReceivedRequestCard.jsx:10 | absent skills default to the empty list |
| RequestCard.ChipKey | src/components/ReceivedRequestCard.jsx:138 | a chip key is the request id, "-skill-", then decimal digits whose value is the chip's index |
| RequestCard.ChipKeysDistinct | src/components/ReceivedRequestCard.jsx:138 | the chip keys `${_id}-skill-${index}` of one card never collide |
| RequestCard.AvatarOf | src/components/ReceivedRequestCard.jsx:76-93 | a truthy photo URL shows the image and hides the initials badge; otherwise no image and the badge shows the initials |
| RequestCard.View | src/components/ReceivedRequestCard.jsx:65-145 | the card shows the avatar, the name line, the request's status text (highlighted iff "interested"), the gender label, the about text iff truthy, and one keyed chip per skill |
| RequestCard.BareSenderRenders | src/components/ReceivedRequestCard.jsx:8-16 | a sender with no names, gender, photo or skills still renders: empty badge shown, empty label, no chips |
| RequestCard.ActionPath | src/components/ReceivedRequestCard.jsx:21 | the path is "/requests/", the id, then "/" and the decision's tag ("accepted" or "rejected") |
| RequestCard.ActionPathRoundTrip | src/components/ReceivedRequestCard.jsx:21 | the path `/requests/{_id}/{action}` parses back to the request id and the decision when the id has no `/` |
| RequestCard.ActionPathInjective | src/components/ReceivedRequestCard.jsx:20-21 | distinct ids or decisions PATCH distinct paths |
| RequestCard.ActionErrorMessage | src/components/ReceivedRequestCard.jsx:30-31 | the action error is the server message, else `err.message`, else "An error occurred" |
| RequestCard.Act | src/components/ReceivedRequestCard.jsx:18-62 | each press PATCHes its path; `onUpdate(_id)` is called exactly once after a success and never after a failure, which sets a non-empty card error |
| Loader.Initial | src/components/ReceivedRequest.jsx:7-9 | the loader starts with an empty list, loading, and no error |
| Loader.Settle | src/components/ReceivedRequest.jsx:11-26 | a settle ends loading; a success stores `data \|\| []` and keeps the error; a failure keeps the list and stores the derived message |
| Loader.PhaseOf | src/components/ReceivedRequest.jsx:39-72 | an error view always carries a non-empty message; a listing is never empty and is the whole list |
| Loader.PhasePrecedence | src/components/ReceivedRequest.jsx:39-72 | loading wins, then a truthy error, then the empty notice; only a settled, error-free, non-empty state lists its items, all of them in order |
| Loader.SuccessReplacesList | src/components/ReceivedRequest.jsx:17 | the list after a success does not depend on the list before |
| Loader.SettleIdempotent | src/components/ReceivedRequest.jsx:11-26 | settling twice with the same outcome is settling once |
| Loader.ErrorIsSticky | src/components/ReceivedRequest.jsx:17-21 | once a truthy error is set, every further settle still shows the error view |
| ReceivedRequests.RemoveById | src/components/ReceivedRequest.jsx:29-33 | removal never lengthens the list |
| ReceivedRequests.RemoveMembers | src/components/ReceivedRequest.jsx:29-33 | removal keeps exactly the requests whose `_id` differs from the id |
| ReceivedRequests.RemoveKeepsOrder | src/components/ReceivedRequest.jsx:29-33 | the kept requests are a subsequence of the list: their relative order is preserved |
| ReceivedRequests.RemoveConcat | src/components/ReceivedRequest.jsx:29-33 | removal distributes over concatenation |
| ReceivedRequests.RemoveAbsent | src/components/ReceivedRequest.jsx:29-33 | removing an id no request carries leaves the list unchanged |
| ReceivedRequests.RemoveIdempotent | src/components/ReceivedRequest.jsx:29-33 | removing an id twice is removing it once |
| ReceivedRequests.RemoveCommutes | src/components/ReceivedRequest.jsx:29-33 | removals of two ids commute |
| ReceivedRequests.RemoveBetween | src/components/ReceivedRequest.jsx:29-33 | removing the id of the one request between two runs without it keeps both runs |
| ReceivedRequests.RemoveUnique | src/components/ReceivedRequest.jsx:29-33 | a request whose id occurs once is removed alone, the others keeping their order |
| ReceivedRequests.FetchErrorMessage | src/components/ReceivedRequest.jsx:19-21 | the fetch error is the server message, else "Failed to fetch connection requests" |
| ReceivedRequests.Fetch | src/components/ReceivedRequest.jsx:11-26 | a fetch ends loading; a success stores `data \|\| []` without clearing the error; a failure keeps the list and sets a non-empty error |
| ReceivedRequests.Render | src/components/ReceivedRequest.jsx:39-83 | three placeholder tiles while loading, then the stored error text with Retry, then "No connection requests received", else one card per request keyed by its id |
| ReceivedRequests.AbsentDataShowsNoRequests | src/components/ReceivedRequest.jsx:17 | a first fetch without `data` shows the empty notice, not an error |
| ReceivedRequests.RetryAsWritten | src/components/ReceivedRequest.jsx:57 | the Retry as written ends loading and, on success, stores the list but keeps the old error; on failure it stores the new message |
| ReceivedRequests.RetryAsWrittenIsStuck | src/components/ReceivedRequest.jsx:57 | with the Retry as written, the error view survives any retried fetch |
| ReceivedRequests.RetryAsWrittenCounterexample | src/components/ReceivedRequest.jsx:57 | a failed first fetch followed by a successful retry with one request still shows the error |
| ReceivedRequests.Retry | src/components/ReceivedRequest.jsx:57 | the corrected retry: a success clears the error and stores the fetched list; a failure stores the new message |
| ReceivedRequests.RetryRecovers | src/components/ReceivedRequest.jsx:57 | a successful corrected retry leaves the error view for the empty notice or the cards |
| ReceivedRequests.Decide | src/components/ReceivedRequest.jsx:76-82 | a card's failed decision leaves the page state unchanged; a successful one removes every request with that id |
| ReceivedRequests.CompletionOrderIrrelevant | src/components/ReceivedRequest.jsx:29-33 | two successful decisions completing in either order leave the same list, without both ids |
| ReceivedRequests.LastRequestDeclined | src/components/ReceivedRequest.jsx:29-33 | declining the only request leaves the empty notice |
| Connections.FetchErrorMessage | src/components/Connections.jsx:17-19 | the fetch error is `err.message`, else "Failed to fetch connections" |
| Connections.ServerMessageIgnored | src/components/Connections.jsx:18 | the server's message never changes the connections error |
| Connections.Fetch | src/components/Connections.jsx:11-23 | a fetch ends loading; a success stores `data \|\| []`; a failure keeps the list and sets a non-empty error |
| Connections.Render | src/components/Connections.jsx:29-39 | "Loading connections...", then "Error: " and the message, then "No connections found", else one card per connection keyed by its id |
| Connections.NullDataShowsNoConnections | src/components/Connections.jsx:16 | a response with `data: null` shows "No connections found", and no card is evaluated, so nothing can throw |
| ConnectionCard.FirstCharText | src/components/ConnectionCard.jsx:5 | `${s[0]}` is the first character, or the text "undefined" for an empty string |
| ConnectionCard.Renders | src/components/ConnectionCard.jsx:29 | with both names present, the card renders without throwing exactly when the request card would show a gender label |
| ConnectionCard.Initials | src/components/ConnectionCard.jsx:5 | each name contributes its first character, not upper-cased, or the nine characters "undefined" when it is empty, first name first |
| ConnectionCard.GuardedInitialsAgree | src/components/ConnectionCard.jsx:5 | for non-empty names the request card's guarded initials are these, upper-cased |
| ConnectionCard.EmptyNameContrast | src/components/ConnectionCard.jsx:5 | with an empty first name the guarded card drops the letter while this card shows "undefined" |
| ConnectionCard.Subtitle | src/components/ConnectionCard.jsx:29 | for a non-empty gender the subtitle is its upper-cased first letter, ", ", then the age in decimal (nothing when absent) |
| ConnectionCard.NameLine | src/components/ConnectionCard.jsx:25 | the name line is the first name, one space, then the last name, for any names; when neither contains a space it splits back into the pair |
| ConnectionCard.View | src/components/ConnectionCard.jsx:7-37 | a truthy photo URL shows the image, else the initials badge; the subtitle and name line as above, and the about text ("" when absent) |
| ConnectionCard.AnnLeeBadge | src/components/ConnectionCard.jsx:5-20 | Ann Lee without a photo shows the badge "AL" |
| Feed.Fetch | src/components/Feed.jsx:12-21 | a success stores `data \|\| []`; a failure leaves the store as it was |
| Feed.FetchedFeedIsList | src/components/Feed.jsx:17 | after a success the feed is a list, and an absent payload stores the same empty list as an empty one |
| Feed.Render | src/components/Feed.jsx:28-36 | an absent or empty feed shows "No Users Found..."; otherwise exactly one card, the head, keyed by its id |
| Feed.FailureKeepsScreen | src/components/Feed.jsx:18-20 | a failed fetch does not change what is shown |
| Feed.OnlyHeadShown | src/components/Feed.jsx:32-34 | feeds with the same head show the same card |
| Remote.FirstTruthy | src/components/Profile.jsx:87-90 | an `a \|\| b \|\| fallback` chain yields the first truthy candidate, else the fallback, and is non-empty when the fallback is |

## Left out

- HTTP transport: axios, `BASE_URL`, `withCredentials` and the response envelope are
  reduced to `Remote.Outcome`; request bodies are data, not effects.
- React machinery: hooks, the fetch-on-mount effects (a mount is `Initial()` followed by
  one settle), re-render timing, JSX markup and CSS classes. The profile's effect on
  `user` is the separate transition `ProfileEdit.SyncFromStore`; React runs it right
  after the first render and whenever the stored user changes, so the state the page
  offers to the user is `SyncFromStore(Mount(user))`, never `Mount(user)` alone.
- Redux: `addUser` and `addFeed` are taken as wholesale replacement of the stored value;
  the slices are not part of this model. The profile stores `response.data` and the
  login stores `res.data.data`, each as given.
- Side effects with no state: toasts, `console.log`/`console.error`, `navigate("/")`
  (a successful sign-in result stands for it), and the image `onError` handler that swaps
  a broken photo for the badge.
- Login `handleChange`: a generic one-field record update with nothing to prove.
- JavaScript coercion: the sign-up age is a raw text plus an abstract numeric
  conversion (`Option<real>`), not `isNaN` and string-to-number semantics; `null` and
  `undefined` are both `None` (a `null` skills list would throw in the request card,
  where only `undefined` takes the default).
- Unicode: `toUpperCase` is ASCII-only. A Dafny character is a Unicode scalar value,
  while JavaScript strings are sequences of UTF-16 code units: a character outside the
  Basic Multilingual Plane (an emoji, say) counts once here but twice in JavaScript's
  `length` and indexing, and its first code unit alone is what `s[0]` yields there.
- LoginForm.Validate: the password length compared with 8 counts scalar values, so a
  password of four emoji (8 code units, accepted by the source) is too short here; the
  same difference affects the first letters taken by `RequestCard.Initials`,
  `RequestCard.GenderLabel` and `ConnectionCard.Initials` for such characters.
- The request card's local `error` is modelled, but the source never renders it; only the
  toast shows it.
- Feed consumption by id, the user card and its buttons: no handler exists in the feed
  page's code.
- ConnectionCard.View: requires both names and a non-empty gender, because the source
  throws a TypeError otherwise; the throw itself is not modelled.
- ReceivedRequests.RemoveById: its own contract states only that the list does not grow;
  membership, order and the algebraic laws are the separate lemmas listed above.

## Findings

| source | as written | input that shows it | evidently intended | confidence | as-written member | corrected member |
|---|---|---|---|---|---|---|
| src/components/ReceivedRequest.jsx:57 | Retry calls `fetchRequests`, which neither sets `loading` nor clears `error`, and the view checks `error` before the list | the first fetch fails with no server message, then Retry succeeds with one request: the page still shows "Failed to fetch connection requests" | Retry returns to loading with the error cleared, so a successful retry shows the requests | high; not executed | ReceivedRequests.RetryAsWritten | ReceivedRequests.Retry |
