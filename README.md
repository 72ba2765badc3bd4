# Petfy front-end core, modelled in Dafny

Petfy is a small pet-walking web front-end. It keeps all of its state in browser storage. This project models the parts of it that hold rules:

- **The authentication service.** It keeps a user directory and a session. Its validators check the username, the email shape and the password confirmation. `register` applies them in order, then checks uniqueness, appends the new user and logs them in. The service also provides `login`, `logout`, `setWalkerRole` and the session queries.
- **The requests screen.** It splits the stored walk requests into pending and confirmed ones. It lets the user select a request and cancel it, which removes that request's id from the stored list.
- **The history screen.** It shows the finished walks (`isCompleted` true) and filters them by an optional start date and an optional end date, both inclusive. It also runs the star-rating dialog.
- **The chat screen.** It keeps one transcript per request and walker under the key `chat_<requestId>_<walkerName>`. A chat with nothing saved opens with a greeting from the walker. Sending appends the trimmed message. A simulated reply appends one of fifteen fixed answers.
- **The walker application form.** It checks three fields in order: document, phone, description.

Each stateful component is a Dafny `class`, and its storage key is a field: a `seq` of records, or a `map` from chat key to transcript. Each method states the component's whole new state. Each method's filtering or validation is a function whose properties are proved as lemmas.

Two modules model the JavaScript library behaviour the components depend on:
- `JsArray`: `filter`, and `find`/`findIndex`.
- `JsString`: `trim` with ECMAScript's whitespace set, `split` on one character, `length` in UTF-16 code units, and `String(n)` for integers. A first-occurrence search, `IndexOf`, defines `split` and the email scan.

Files:
- `js_array.dfy`: modules `Optional` and `JsArray`.
- `js_string.dfy`: module `JsString`.
- `auth.dfy`: module `Auth`.
- `requests.dfy`: modules `WalkRequests` (the stored record) and `Requests`.
- `history.dfy`: module `History`.
- `chat.dfy`: module `Chat`.
- `walker_application.dfy`: module `WalkerApplication`.

`register` checks uniqueness by comparing the stored usernames with the username as typed. It then stores the trimmed username, so a padded duplicate gets through (see Findings). `Auth.AuthService.Register` uses the corrected check, which also compares the trimmed username. The check as written is kept as `Auth.UserExistsAsWritten`.

## Model

| member | source | states |
|---|---|---|
| Auth.ValidUsername | src/app/services/auth.service.ts:50-53 | A username is valid iff its trimmed length, in UTF-16 code units, is between 3 and 20. `PlainUsernameLength` states what this means for plain usernames. |
| Auth.PlainUsernameLength | src/app/services/auth.service.ts:50-53 | For a username of lower-case ASCII letters (`a` to `z`), the username is valid iff it has between 3 and 20 characters. |
| Auth.IsValidEmail | src/app/services/auth.service.ts:32-35 | A scan for `@` with text before it, no whitespace or second `@`, and an inner dot after it. `IsValidEmailIsRegex` proves it equal to the regular expression. |
| Auth.IsValidEmailIsRegex | src/app/services/auth.service.ts:32-35 | The character-level email check holds iff the string matches `^[^\s@]+@[^\s@]+\.[^\s@]+$`: one `@`, no whitespace, and a dot with text on both sides after the `@`. |
| Auth.ValidateEmailFormat | src/app/services/auth.service.ts:38-47 | The pattern check, then the length checks on the `split('@')` and `split('.')` parts, exactly as written. `ValidateEmailFormatSpec` restates it with positions. |
| Auth.ValidateEmailFormatSpec | src/app/services/auth.service.ts:38-47 | The email is accepted iff it matches the pattern, the local part is longer than 2, the text between `@` and the first dot is longer than 2, and the segment after that dot, up to the next dot or the end, is non-empty. So `abc@def..com` matches the pattern but is rejected. |
| Auth.EmailFromParts | src/app/services/auth.service.ts:43-46 | An email built as local@name.rest, from parts without whitespace or `@` and a name without dots, is accepted iff local and name are longer than 2 and rest does not start with a dot. |
| Auth.ValidEmailIsTrimmed | src/app/services/auth.service.ts:102 | An accepted email has no whitespace at either end, so trimming it on storage does not change it. |
| Auth.ValidPasswords | src/app/services/auth.service.ts:56-58 | The passwords are accepted iff the confirmation equals the password and the password is not empty. |
| Auth.UserExistsAsWritten | src/app/services/auth.service.ts:88-90 | Some stored user has the same email or the same username as typed. Findings shows what this misses. |
| Auth.ErrorMessage | src/app/services/auth.service.ts:63-96 | The message each failed registration check returns, and the one a failed login returns (line 132). |
| Auth.UserExists | src/app/services/auth.service.ts:88-90 | The corrected uniqueness check: the check as written, or a stored username equal to the trimmed username that would be stored. |
| Auth.NewUser | src/app/services/auth.service.ts:100-105 | The stored record: trimmed username and email, the password as typed, role customer. |
| Auth.CheckRegistration | src/app/services/auth.service.ts:61-119 | An accepted registration yields the trimmed username, the email, the password and role customer. Its email and username differ from every stored user's. A rejection never reports wrong credentials. |
| Auth.RegisterChecksInOrder | src/app/services/auth.service.ts:61-97 | Each failure is reported iff every earlier check passed and this one failed, in the order username, email, passwords, uniqueness. Success holds iff all four pass. |
| Auth.RegisterRejectsTakenAccount | src/app/services/auth.service.ts:86-97 | A registration whose email or untrimmed username is already stored is rejected. |
| Auth.RegisterKeepsAccountsDistinct | src/app/services/auth.service.ts:86-108 | Appending an accepted user to a directory with distinct emails and usernames keeps them distinct. |
| Auth.PaddedUsernameSlipsPastCheckAsWritten | src/app/services/auth.service.ts:88-90 | The directory holds "bob" and the new username is " bob". All three validators pass and the uniqueness check as written finds no clash. Appending the stored user would give two accounts named "bob". |
| Auth.PaddedUsernameRejected | src/app/services/auth.service.ts:88-90 | The corrected check rejects that registration as an existing account. |
| Auth.FirstWithEmail | src/app/services/auth.service.ts:176 | `findIndex` by email is None iff no user has that email; otherwise it is the first such position. |
| Auth.DistinctAccountIsFirst | src/app/services/auth.service.ts:176-178 | In a directory with distinct emails, every stored account is the first one with its email. |
| Auth.MatchesCredentials | src/app/services/auth.service.ts:125-126 | A stored user matches a login iff its email and password both equal the ones given. |
| Auth.AuthService.constructor | src/app/services/auth.service.ts:23-29 | The service starts with the stored directory and the saved session. |
| Auth.AuthService.GetCurrentUser | src/app/services/auth.service.ts:160-162 | Returns the session. |
| Auth.AuthService.IsLoggedIn | src/app/services/auth.service.ts:165-167 | True iff there is a current user. |
| Auth.AuthService.IsWalker | src/app/services/auth.service.ts:191-193 | True iff the current user has role walker. Being a walker implies being logged in. |
| Auth.AuthService.Register | src/app/services/auth.service.ts:61-120 | The result is the registration outcome. On success exactly one user is appended and the session becomes that user. On failure the directory and the session are unchanged. Distinct accounts and the session being a stored account are preserved. The returned message is the one for the outcome. |
| Auth.AuthService.Login | src/app/services/auth.service.ts:123-145 | Succeeds iff some stored user matches email and password exactly. The session becomes the first such user. On failure the error is the generic one and the session is unchanged. The directory never changes. The returned message is the one for the outcome. |
| Auth.AuthService.Logout | src/app/services/auth.service.ts:148-151 | Clears the session; afterwards the user is not logged in. |
| Auth.AuthService.SetWalkerRole | src/app/services/auth.service.ts:170-188 | Returns false and changes nothing without a session. Otherwise the session gets role walker, and so does the first stored user with the session's email, if any. Every other user is unchanged. |
| Requests.WithStatus | src/app/components/requests/requests.component.ts:35-36 | Keeps exactly the requests whose status text equals the given text, each as many times as the stored list holds it, in stored order, as a subsequence of the stored list. |
| Requests.WithoutId | src/app/components/requests/requests.component.ts:62 | Keeps exactly the requests whose id differs from the given one, each as many times as the list holds it, in stored order. |
| Requests.CancelAbsentIdIsNoOp | src/app/components/requests/requests.component.ts:62 | Cancelling an id no request carries leaves the stored list unchanged. |
| Requests.CancelIsIdempotent | src/app/components/requests/requests.component.ts:62 | Removing an id twice is the same as removing it once. |
| Requests.PartitionIsDisjoint | src/app/components/requests/requests.component.ts:35-36 | The pending and confirmed lists are disjoint, and together they hold no request more often than the stored list does. |
| Requests.CancelCommutesWithStatus | src/app/components/requests/requests.component.ts:62-65 | Splitting the list after a removal gives the old status lists with that id removed. |
| Requests.RequestsComponent.constructor | src/app/components/requests/requests.component.ts:29-31 | The screen opens with the lists loaded from storage and nothing selected. |
| Requests.RequestsComponent.LoadRequests | src/app/components/requests/requests.component.ts:33-37 | The pending and confirmed lists become the stored list split by status. |
| Requests.RequestsComponent.SelectRequest | src/app/components/requests/requests.component.ts:43-45 | Selects the request and changes nothing else. |
| Requests.RequestsComponent.CancelRequest | src/app/components/requests/requests.component.ts:58-72 | With no selection, or when the user declines, nothing changes. When the user confirms, every request with the selected id is removed from storage, the lists are reloaded and the selection is cleared. If the lists were loaded, each one loses exactly that id. |
| History.FinishedWalks | src/app/components/history/history.component.ts:49-52 | Keeps exactly the requests whose `isCompleted` is true, each as many times as the stored list holds it, in stored order. |
| History.InRange | src/app/components/history/history.component.ts:63-74 | A date passes iff it is at or after the start bound when one is set, and at or before the end bound when one is set. |
| History.WithinDates | src/app/components/history/history.component.ts:62-75 | Keeps exactly the walks whose date is in range, each as many times as the input holds it, as an order-preserving subsequence. |
| History.NoBoundsKeepsAll | src/app/components/history/history.component.ts:57-60 | With neither bound set, the date filter keeps every walk. The early return therefore agrees with it. |
| History.InclusiveBoundsExample | src/app/components/history/history.component.ts:67-68 | With bounds 20240101 and 20240115, walks on those two days are kept and one on 20240201 is dropped. |
| History.NarrowerRangeKeepsFewer | src/app/components/history/history.component.ts:62-75 | Setting an unset bound, or tightening a set one, keeps a subsequence of what the wider range keeps. This holds for any combination of set and empty bounds. |
| History.ThanksMessage | src/app/components/history/history.component.ts:113-117 | The thank-you text ends in "!" and has the plural "s" before it iff more than one star was given. |
| History.HistoryComponent.constructor | src/app/components/history/history.component.ts:23-41 | The screen opens with the finished walks loaded, all of them shown, no bounds, the dialog closed and no rating, and the invariant `Valid` holds: the finished walks are those of the stored list, and the shown walks are an order-preserving selection of them. |
| History.HistoryComponent.LoadFinalizedWalks | src/app/components/history/history.component.ts:47-54 | The finished walks are reloaded, and all of them are shown; `Valid` holds afterwards. |
| History.HistoryComponent.FilterWalks | src/app/components/history/history.component.ts:56-76 | The shown walks become the finished walks within the bounds, and nothing else changes; `Valid` is kept, so the shown walks stay a subsequence of the finished walks. |
| History.HistoryComponent.SelectWalk | src/app/components/history/history.component.ts:78-80 | Selects the walk. |
| History.HistoryComponent.SelectRating | src/app/components/history/history.component.ts:82-87 | Selects the walk, sets the rating kind to walk, opens the dialog and zeroes the rating. |
| History.HistoryComponent.RateApp | src/app/components/history/history.component.ts:89-93 | Sets the rating kind to app, opens the dialog and zeroes the rating. |
| History.HistoryComponent.SetRating | src/app/components/history/history.component.ts:95-97 | Sets the rating and nothing else. |
| History.HistoryComponent.HoverRating | src/app/components/history/history.component.ts:99-101 | Sets the hovered rating and nothing else. |
| History.HistoryComponent.ClearHover | src/app/components/history/history.component.ts:103-105 | Zeroes the hovered rating and nothing else. |
| History.HistoryComponent.SubmitRating | src/app/components/history/history.component.ts:107-122 | With no rating, the user is asked for one and nothing changes. Otherwise the user is thanked for that kind and number of stars, the dialog closes and both rating fields are zeroed. |
| History.HistoryComponent.CloseRatingModal | src/app/components/history/history.component.ts:124-128 | Closes the dialog and zeroes both rating fields. |
| Chat.Greeting | src/app/components/chat/chat.component.ts:51 | The greeting names the walker right after the salutation. |
| Chat.WalkerNameFrom | src/app/components/chat/chat.component.ts:31 | A non-empty parameter is used as given. An absent or empty parameter gives "Paseador". The name is never empty. |
| Chat.RequestIdFrom | src/app/components/chat/chat.component.ts:32 | The request id is null iff the value did not parse or parsed to zero. Otherwise it is the parsed number. |
| Chat.IdText | src/app/components/chat/chat.component.ts:40 | The rendered request id never contains the key's separator `_`. |
| Chat.IdTextInjective | src/app/components/chat/chat.component.ts:40 | Different request ids render differently. |
| Chat.ChatKey | src/app/components/chat/chat.component.ts:40 | The storage key `chat_<requestId>_<walkerName>`. `ChatKeyInjective` proves that it identifies the chat. |
| Chat.ChatKeyTail | src/app/components/chat/chat.component.ts:40 | After the `chat_` prefix, the key is the id text, `_` and the walker name. |
| Chat.TailDetermines | src/app/components/chat/chat.component.ts:40 | An id text and a name joined by `_` can be read back from the joined text. |
| Chat.ChatKeyInjective | src/app/components/chat/chat.component.ts:40 | Two chats share a storage key only if they have the same request id and the same walker name. |
| Chat.ChatComponent.constructor | src/app/components/chat/chat.component.ts:28-36 | The walker name and request id come from the route parameters, then the transcript is loaded. |
| Chat.ChatComponent.LoadMessages | src/app/components/chat/chat.component.ts:38-56 | A saved transcript is shown in saved order. Otherwise exactly one message is shown: id 1, from the walker, the greeting. |
| Chat.ChatComponent.SendMessage | src/app/components/chat/chat.component.ts:58-76 | Blank input changes nothing. Otherwise exactly one user message with the trimmed text is appended, the input is cleared and the transcript is saved under the chat's key. The result says whether a reply was scheduled. |
| Chat.ChatComponent.SimulateWalkerResponse | src/app/components/chat/chat.component.ts:78-108 | Exactly one walker message, one of the fixed responses, is appended and the transcript is saved. |
| Chat.ChatComponent.SaveMessages | src/app/components/chat/chat.component.ts:111-114 | The transcript is stored under this chat's key, and every other key keeps its transcript. |
| WalkerApplication.WalkerApplicationComponent.constructor | src/app/components/walker-application/walker-application.component.ts:14-20 | The form starts with no document, empty fields and no file name. |
| WalkerApplication.WalkerApplicationComponent.OnFileSelected | src/app/components/walker-application/walker-application.component.ts:30-36 | A chosen file becomes the document, and its name is shown. Without a file nothing changes. |
| WalkerApplication.WalkerApplicationComponent.SubmitApplication | src/app/components/walker-application/walker-application.component.ts:38-61 | Each outcome holds iff its check is the first to fail, in the order document, phone, description. Submission succeeds iff there is a document and the trimmed phone and description are both non-empty. |
| JsArray.Filter | src/app/components/requests/requests.component.ts:35 | `filter` is no longer than its input, and everything it keeps satisfies the predicate. |
| JsArray.FindFirst | src/app/services/auth.service.ts:125-127 | `find`/`findIndex` returns None iff no element satisfies the predicate. Otherwise it returns the first index whose element does. |
| JsArray.SubsequenceReflexive | src/app/components/history/history.component.ts:53 | A list is an order-preserving subsequence of itself, so showing a copy of all finished walks keeps the history invariant. |
| JsArray.FilterIsSubsequence | src/app/components/requests/requests.component.ts:35 | `filter` keeps an order-preserving subsequence of its input. |
| JsArray.FilterMembers | src/app/components/requests/requests.component.ts:35 | `filter` keeps exactly the elements that satisfy the predicate: everything kept comes from the input, and every input element that satisfies it is kept. |
| JsArray.FilterCounts | src/app/components/requests/requests.component.ts:35 | `filter` keeps every element that satisfies the predicate exactly as many times as the input holds it, and no other element. With `FilterIsSubsequence` this fixes the result. |
| JsArray.NarrowedFilter | src/app/components/history/history.component.ts:62-75 | A stricter predicate keeps a subsequence of what the looser one keeps. |
| JsArray.FilterCommutes | src/app/components/requests/requests.component.ts:62-65 | Two filters give the same result in either order. |
| JsArray.DisjointFiltersWithin | src/app/components/requests/requests.component.ts:35-36 | Filters with predicates that never hold together select disjoint parts of the list. |
| JsString.IsWhitespace | src/app/services/auth.service.ts:51 | The characters `trim()` removes and `\s` matches: ECMAScript's WhiteSpace and LineTerminator code points. |
| JsString.Trim | src/app/services/auth.service.ts:51 | `trim()` is empty iff the string is all whitespace. Otherwise the result has no whitespace at either end. |
| JsString.IndexOf | src/app/services/auth.service.ts:43 | The first-occurrence search that `split` at this line performs, and that the email scan uses to find the `@`. It returns -1 iff the character is absent; otherwise it returns a position holding the character, with none before it. |
| JsString.Split | src/app/services/auth.service.ts:43-44 | `split` gives at least one part, and at least two iff the separator occurs. No part contains the separator, and the first part is the text before the first separator. |
| JsString.JsLength | src/app/services/auth.service.ts:52 | `length` of a single character is its UTF-16 code units: one inside the Basic Multilingual Plane, two beyond it. The total lies between one and two units per character, and equals the character count when every character is in the plane. |
| JsString.JsLengthAppend | src/app/services/auth.service.ts:52 | `length` of a concatenation is the sum of the lengths. With the single-character case, this makes the length the sum of each character's code units. |
| JsString.NumberToString | src/app/components/chat/chat.component.ts:40 | `String(n)` starts with `-` iff n is negative, every other character is a decimal digit, and the digits denote the magnitude of n with no leading zero (0 is written "0"). |
| JsString.TrimIsSlice | src/app/services/auth.service.ts:51 | `trim()` returns a contiguous slice of the input, and everything it drops on either side is whitespace. |
| JsString.SplitJoin | src/app/services/auth.service.ts:43-44 | Joining the parts of `split` with the separator gives back the string. |
| JsString.NumberToStringInjective | src/app/components/chat/chat.component.ts:40 | Distinct integers render as distinct decimal strings. |

## Left out

- Auth.ResultMessage: no contract of its own. The model does not prove the five failure messages and the two success messages pairwise distinct: the verifier cannot handle the long message literals within its resource limit.
- Auth.CheckRegistration: uses the corrected uniqueness check, which also rejects a stored username equal to the trimmed username. The code as written lets a padded duplicate through; it is kept as `Auth.UserExistsAsWritten` (see Findings).
- Auth.AuthService.Register: returns the outcome of `Auth.CheckRegistration`, so it differs from the code as written in the same way, for a username with surrounding whitespace that matches a stored username once trimmed.
- Browser storage and JSON: every storage key is a field of its component's class, read at construction. Malformed JSON, storage shared between tabs, and one screen's write becoming visible to another component's instance are not modelled.
- The observable session: `currentUserSubject` and `currentUser$` are one `Option<User>` field, with no subscribers.
- Object aliasing: `setWalkerRole` mutates the current-user object in place. The model writes a new session value and updates the directory entry separately. That entry is the first stored user with the same email.
- The regular-expression engine: `isValidEmail` is restated as a character-level predicate and proved equivalent to the pattern's meaning.
- JavaScript numbers are modelled as unbounded integers. `String(n)` always writes plain decimal digits; JavaScript switches to exponent notation from 10^21 in magnitude, which the model does not capture. Fractional and NaN request ids do not occur: the parse result comes in as an `Option<int>`.
- Dates are already-parsed integers that order as the source's `Date` values do. Invalid dates, which compare false both ways in JavaScript, are not modelled. `formatDate` and `formatTime` (locale formatting) are left out.
- `Date.now()`, `new Date()`, `Math.random()` and `setTimeout` are inputs: a clock reading `now` and a reply index `choice`. `SendMessage` returns whether a reply is scheduled; the delayed reply is the separate call `SimulateWalkerResponse`.
- `alert` and `confirm` are returned outcomes and a boolean argument. `Router.navigate` (`goBack`, `modifyRequest`, and the redirect after submitting the application) has no state to model.
- Message timestamps are integers. Rebuilding each saved timestamp as a `Date` on load is therefore the identity, and a saved transcript is shown as stored.
- The file input event: `OnFileSelected` receives the first file, or None.
- src/app/components/home/home.component.ts and src/app/app.routes.ts are not part of this model: they hold only routing.

## Findings

| source | as written | input that shows it | evidently intended | confidence | as-written member | corrected member |
|---|---|---|---|---|---|---|
| src/app/services/auth.service.ts:88-90 | The uniqueness check compares stored usernames with the untrimmed username, but line 101 stores the trimmed one. | A directory holding "bob" and a registration with username " bob" and an unused email: every check passes and a second "bob" is stored. | Compare the username that will be stored, so no two accounts share a username. | not executed | Auth.PaddedUsernameSlipsPastCheckAsWritten | Auth.RegisterKeepsAccountsDistinct |
