# School audio broadcast: playback queue, route gate and flat-file records in Dafny

This project models three small, self-contained parts of the school audio broadcast web app:

- **The dashboard's playback queue** (`src/app/page.tsx`, types from `src/lib/types.ts`). A
  `QueueState` holds the waiting `items` and the `currentlyPlaying` item. A socket `newAudio`
  event enqueues a clip, and if nothing is playing the clip starts playing at once. `playNext`
  promotes the head of `items`, or clears the state when nothing waits.
  - Module `PlaybackQueue`.
  - `Enqueued` and `Advanced` are the two transitions as pure functions.
  - `Player` is the component state (`queue`, `isPlaying`). Its methods are specified by those
    functions.
  - `Replay` runs a sequence of events from the initial state. The lemmas prove that every
    reachable state behaves like a first-in-first-out line (`Fifo`).
- **The route gate** (`src/middleware.ts`). It is a pure decision on the request path and
  cookies: allowlisted prefixes pass, a request with an `auth-token` cookie passes, and the rest
  is redirected to `/login`. Module `Middleware`.
- **The flat-file CSV records.**
  - The users file `data/users.csv`: `GET` and `POST` in `src/app/api/users/route.ts` (module
    `UsersRoute`), and the first-match lookup in `src/app/api/users/login/route.ts` (module
    `LoginRoute`).
  - The admin file `data/database.csv`: written by `src/setup.js` and checked by
    `src/lib/utils/credentials.ts` (module `AdminCredentials`). `src/lib/auth.ts` runs the same
    check and recovers from a missing file (module `Auth`).

Shared modules:

- `Text` models JavaScript's `split`, `join` and `trim` on strings, with the split/join round
  trip.
- `FileIo` gives the possible results of a file read.
- `Wrappers` holds `Option`, which stands for `undefined` and `null`.

External effects are parameters:

- The result of a file read is a `ReadResult`: the contents, ENOENT, or another error.
- bcrypt's password comparison is a function parameter `matches: (string, string) -> bool`.
- Fresh ids, timestamps and password hashes are given as field values.
- For `playNext` and for the start that `newAudio` schedules, what the audio element's `play()` did is an `Option<bool>`.

The users file and the admin file are each parsed by two copies of the same code in the source.
The model defines each parse once: `UsersRoute.ParseUsers` for the users file and
`AdminCredentials.CheckAdminLine` for the admin line, and both callers use it.

The app has no server-side queue and no guard against stale "item ended" signals. It also
keeps no registry of observers: the upload route only builds an item and emits it to every
connected client. The only queue is therefore the client-side one in `page.tsx`, and that is
what is modelled. `AudioItem.status` admits `'playing'` and `'completed'`, but no code ever
changes it, and the model proves that items keep the `'pending'` status they arrive with.

## Model

| member | source | states |
|---|---|---|
| PlaybackQueue.Enqueued | src/app/page.tsx:31-53 | while something plays, the clip is appended to `items` and `currentlyPlaying` is kept; while idle, the clip becomes `currentlyPlaying` and `items` is left exactly as it was; the count of held items (waiting plus one if playing) grows by exactly one; from a state where nothing waits while nothing plays, the play order gains the clip at its end |
| PlaybackQueue.Advanced | src/app/page.tsx:84-99 | with waiting items, the head starts playing and the rest keep their order; with none, the state becomes `{[], null}` and the playing item is dropped; the result never has waiting items while idle; from a state where nothing waits while nothing plays, the play order loses exactly its first item |
| PlaybackQueue.AdvanceWhenEmptyIsIdempotent | src/app/page.tsx:97-99 | with nothing waiting, `playNext` yields the initial empty state, and applying it again changes nothing |
| PlaybackQueue.ReplayIsFifo | src/app/page.tsx:12-99 | every state reachable from `{[], null}` by arrivals and `playNext` satisfies "`currentlyPlaying` null implies `items` empty", and its play order equals an independent first-in-first-out line where arrivals join the back and `playNext` removes the front |
| PlaybackQueue.FifoIsSuffixOfArrivals | src/app/page.tsx:31-99 | what the queue still holds is the most recent stretch of arrivals in arrival order: nothing is reordered and nothing appears that did not arrive |
| PlaybackQueue.UploadedAudio | src/app/api/audio/upload/route.ts:27-35 | the item the upload route emits keeps the given id and timestamp, belongs to the fixed test user `test-user` / `Test User`, starts with status `pending` and duration 0, and its URL is the `data:audio/webm;base64,` prefix followed by exactly the clip's base64 text |
| PlaybackQueue.ArrivalsStayPending | src/app/api/audio/upload/route.ts:27-35 | if every clip arrives with status `'pending'`, as the upload route builds it, every item the queue holds, waiting or playing, still has status `'pending'`: neither transition touches `status` |
| PlaybackQueue.UploadsPlayInArrivalOrder | src/app/page.tsx:29-101 | three uploads arriving at an idle dashboard: the first plays at once, the next two wait in order, and after one `playNext` the second plays with the third waiting |
| PlaybackQueue.Player.constructor | src/app/page.tsx:12-13 | the component starts with `{ items: [], currentlyPlaying: null }` and `isPlaying` false |
| PlaybackQueue.Player.OnNewAudio | src/app/page.tsx:29-53 | the `newAudio` handler replaces `queue` by the enqueue transition, leaves `isPlaying` alone (the start it schedules is `PlayScheduled`), keeps the idle-means-empty invariant, and appends the clip to the play order |
| PlaybackQueue.Player.PlayNext | src/app/page.tsx:83-101 | `playNext` replaces `queue` by the advance transition and drops the first item of the play order; with nothing waiting `isPlaying` becomes false; otherwise it is what `play()` reported, or unchanged when there was no element or promise |
| PlaybackQueue.Player.PlayScheduled | src/app/page.tsx:43-49 | the start that `newAudio` schedules when idle leaves the queue as it is and sets `isPlaying` as `playAudio` (page.tsx:61-73) does: true when `play()` resolved, false when it threw, unchanged when there was no element or promise |
| Middleware.SomePrefix | src/middleware.ts:11 | `some(startsWith)` holds iff some allowlist entry is a prefix of the path |
| Middleware.Gate | src/middleware.ts:4-22 | the decision is always pass or a redirect to `/login`, and it is the redirect iff the path has no allowlisted prefix and no `auth-token` cookie is present |
| Middleware.LoginAndTestAlwaysPass | src/middleware.ts:8-12 | paths starting with `/login` or `/test` pass with or without the cookie |
| Middleware.PrefixIsNotASegment | src/middleware.ts:11 | matching is a plain string prefix: `/loginx` and `/testing` pass without the cookie |
| Middleware.ApiEntryIsLiteral | src/middleware.ts:8-19 | below `/api/`, a path passes without the cookie iff it literally starts with `/api/:path*`; `/api/users` without the cookie is redirected to `/login` |
| Middleware.NoCookieRedirects | src/middleware.ts:16-19 | every path outside the allowlist is redirected to `/login` when the cookie is absent |
| Middleware.CookiePresenceSuffices | src/middleware.ts:5-21 | with the cookie present every path passes, and the decision is the same whatever the cookie's value |
| Middleware.RedirectTargetPasses | src/middleware.ts:8-17 | the redirect target `/login` is allowlisted, so following a redirect never redirects again |
| Middleware.SignedOutLoginRequestIsRedirected | src/middleware.ts:8-19 | as written, a signed-out request to `/api/auth` (the login form's endpoint), `/api/users/login` or `/api/audio/upload` is redirected to `/login` |
| Middleware.IntendedGate | src/middleware.ts:4-22 | the corrected gate, with `/api/:path*` read as the pattern "/api and everything below it": it redirects to `/login` iff the path is outside that allowlist and the cookie is absent |
| Middleware.IntendedGateOpensApi | src/middleware.ts:8-11 | under the corrected gate every `/api/...` path passes without the cookie, `/api/auth` included; outside `/api` it decides exactly as the code does |
| Text.Split | src/app/api/users/route.ts:15 | `split` with a one-character separator gives at least one piece, and no piece contains the separator |
| Text.SplitSingle | src/app/api/users/route.ts:19 | a string splits into a single piece exactly when it holds no separator, so a second field exists iff the separator occurs |
| Text.SplitHead | src/lib/utils/credentials.ts:14 | when a split gives two or more pieces, the string begins with the first piece followed by the separator |
| Text.JoinSplit | src/app/api/users/route.ts:15 | joining the pieces of a split with the separator gives back the original string |
| Text.SplitWithoutSeparator | src/app/api/users/route.ts:19 | a string without the separator splits into itself alone |
| Text.SplitAround | src/app/api/users/route.ts:15 | splitting `a + sep + b` gives the pieces of `a` followed by the pieces of `b` |
| Text.SplitJoin | src/app/api/users/route.ts:57 | splitting a separator join of one or more separator-free pieces returns exactly those pieces |
| Text.JoinAvoids | src/app/api/users/route.ts:57 | a character that no piece contains and that is not the separator does not occur in the join |
| Text.NonBlank | src/app/api/users/route.ts:17 | `filter(line => line.trim())` keeps only lines that are not all whitespace, each taken from the input; every non-blank input line is kept; with no blank line the input is returned unchanged |
| Text.NonBlankLength | src/app/api/users/route.ts:17 | the filter returns exactly as many lines as the input has non-blank lines, counted one by one |
| Text.NonBlankAppend | src/app/api/users/route.ts:17 | the blank-line filter keeps order and distributes over concatenation |
| UsersRoute.GetUsers | src/app/api/users/route.ts:10-37 | a missing file (ENOENT) yields an empty user list; any other read error yields a 500 with `Failed to get users`; readable content yields its parsed records |
| UsersRoute.ParseUsers | src/app/api/users/route.ts:15-21 | the number of users is the number of non-blank lines after the first, and every user has a defined id |
| UsersRoute.ToUser | src/app/api/users/route.ts:19-20 | the id is always defined; the email is defined iff the line holds a comma; a column is defined only when every earlier column is |
| UsersRoute.ToUsersAppend | src/app/api/users/route.ts:18-21 | mapping lines to records distributes over concatenation |
| UsersRoute.RecordLine | src/app/api/users/route.ts:57 | the record line ends with a newline, and for fields free of commas and newlines it holds no other newline, so it is exactly one line of the file |
| UsersRoute.RecordLineIsJoin | src/app/api/users/route.ts:57 | the record line is the five fields joined by `,` and terminated by a newline |
| UsersRoute.ColumnsArePositional | src/app/api/users/route.ts:19-20 | a row of comma-free fields maps to its first five fields in the order id, email, username, password, createdAt; missing ones are `undefined`, and fields past the fifth are ignored |
| UsersRoute.ColumnsAreClean | src/app/api/users/route.ts:53 | no column name contains a comma or a newline |
| UsersRoute.HeaderIsColumnsLine | src/app/api/users/route.ts:53 | the header written to a new file is the comma join of the five column names plus a newline |
| UsersRoute.HeaderMatchesParser | src/app/api/users/route.ts:19-20 | read as a row, the header would give every column its own name, so the header and the parser use the same five columns in the same order |
| UsersRoute.HeaderListsNoUsers | src/app/api/users/route.ts:15-17 | the file as first created ends with a newline and lists no users: its only line is the one `GET` skips |
| UsersRoute.HeaderLineIgnored | src/app/api/users/route.ts:15 | whatever the first line holds, it is discarded; the users come from the following lines only |
| UsersRoute.SplitAppendedLine | src/app/api/users/route.ts:58 | for a file ending in a newline, appending a line replaces the final empty piece by that line followed by a new empty piece |
| UsersRoute.AppendLine | src/app/api/users/route.ts:15-21 | appending one line to a newline-terminated file adds exactly that line's record after all earlier ones, or nothing when the line is blank |
| UsersRoute.AppendedUserReadBack | src/app/api/users/route.ts:57-58 | round trip: a record appended with fields free of `,` and newline is parsed back with identical fields, after every earlier record |
| UsersRoute.PostThenGet | src/app/api/users/route.ts:49-58 | after `POST`, whether or not the file existed, the file still ends with a newline; for fields free of `,` and newline, `GET` lists the earlier users followed by the new one |
| UsersRoute.Posted | src/app/api/users/route.ts:49-58 | the new content ends with a newline, keeps the earlier content (or the header, for a missing file) as its prefix, and ends with the record line |
| UsersRoute.UsersFile.Post | src/app/api/users/route.ts:47-58 | the file is created with the header if missing and then gets the record line appended; the newline-terminated invariant is kept; for fields free of `,` and newline, the listing grows by exactly the new user |
| LoginRoute.FindByEmail | src/app/api/users/login/route.ts:19-25 | the lookup finds nothing iff no record has exactly the request email, and otherwise returns the first record that has it |
| LoginRoute.Login | src/app/api/users/login/route.ts:10-52 | a read error, a missing file included, is a 500; a token is issued only for readable content, names the request email, and carries the claims of the first record with that email, whose hash the password check accepted |
| LoginRoute.UnreadableFileFails | src/app/api/users/login/route.ts:45-50 | any read error, a missing users file included, gives a 500 with `Login failed` |
| LoginRoute.UnknownEmailIsRejected | src/app/api/users/login/route.ts:27-31 | an email that no record holds gives a 401 with `Invalid credentials`, whatever the password |
| LoginRoute.FirstMatchDecides | src/app/api/users/login/route.ts:25-44 | only the first record with the email decides. A failing password check gives the same 401 as an unknown email. Success yields claims that are exactly that record's id, email and username. A record without a hash column gives a 500 |
| LoginRoute.HeaderNeverMatches | src/app/api/users/login/route.ts:16 | the header line is never a candidate: a file holding only a header rejects every login |
| LoginRoute.RegisteredUserLogsIn | src/app/api/users/login/route.ts:15-39 | a user appended by the users route to a newline-terminated file, with fields free of `,` and newline and under a new email, logs in with a password that matches the stored hash, and the token names exactly that user |
| AdminCredentials.OnlySecondLineCounts | src/lib/utils/credentials.ts:11 | the admin line is the second line whatever the first says, later lines are ignored, and a single-line file has none |
| AdminCredentials.MissingAdminLineRejects | src/lib/utils/credentials.ts:12 | a missing or empty second line rejects every login |
| AdminCredentials.OtherEmailRejects | src/lib/utils/credentials.ts:14-16 | an email other than the first comma field of the admin line is rejected whatever the password check would answer |
| AdminCredentials.AdminLineDecides | src/lib/utils/credentials.ts:14-18 | for any file whose admin line is non-empty, has a second comma field and starts with the login email as its first field, the answer is the password check against that second field |
| AdminCredentials.MissingHashRejects | src/lib/utils/credentials.ts:14-21 | an admin line without a comma leaves the hash `undefined`; the comparison throws, the error is caught, and every login is rejected |
| AdminCredentials.AdminLine | src/lib/utils/credentials.ts:11 | there is no second line iff the content holds no newline, and the second line itself holds none |
| AdminCredentials.CheckAdminLine | src/lib/utils/credentials.ts:12-18 | an accepted login needs an admin line that begins with the login email followed by a comma |
| AdminCredentials.ValidateCredentials | src/lib/utils/credentials.ts:5-23 | a login is accepted only when the file was read and its second line begins with the login email followed by a comma; any read error gives false |
| AdminCredentials.SetupContent | src/setup.js:24 | for an email and hash free of newlines, the second line of the content setup writes is exactly `email,hash` |
| AdminCredentials.SetupContentRoundTrip | src/setup.js:24 | for an email and hash free of commas and newlines, the content setup writes is parsed back as exactly that email and hash. A login then succeeds iff it names that email and the password check against that hash succeeds |
| AdminCredentials.SetupLineFields | src/setup.js:24 | the admin record setup writes (email, comma, hash) holds no line break, is never empty, and splitting it on commas gives back exactly the email and the hash, so the destructuring in src/lib/utils/credentials.ts:14 recovers both |
| AdminCredentials.DefaultAdmin | src/setup.js:10-24 | after setup, `admin@example.com` is admitted exactly when the password matches the stored hash |
| Auth.AgreesWithPlainCheck | src/lib/auth.ts:15-44 | when the first read does not fail with ENOENT, the answer is the plain credentials check on it; after ENOENT it is that check on the read that follows setup |
| Auth.RetryUsesSameRule | src/lib/auth.ts:34-42 | the retry path applies the same decision rule as the first attempt: the same content gives the same answer |
| Auth.RejectionsOnBothPaths | src/lib/auth.ts:19-49 | a missing or empty second line, or another email, rejects on both the first and the retry path; a non-ENOENT error and any error on the retry give false |
| Auth.SetupRecoveryAdmitsDefaultAdmin | src/lib/auth.ts:28-42 | when the file was missing and setup wrote it, exactly the default admin with a matching password is admitted |
| Auth.ValidateWithSetup | src/lib/auth.ts:11-49 | a read error other than ENOENT gives false; a login is accepted only from content that was read, on the first attempt or after setup, whose second line begins with the login email followed by a comma |

## Findings

| source | as written | input that shows it | evidently intended | confidence | as-written member | corrected member |
|---|---|---|---|---|---|---|
| src/middleware.ts:8-11 | the allowlist entry `/api/:path*` is compared with `startsWith`, so it only matches paths that literally begin with those characters | a signed-out POST to `/api/auth` (sent by the login page) is redirected to `/login`, so signing in from a signed-out browser is impossible; the same happens to `/api/users/login` and `/api/audio/upload` | every path under `/api` is unprotected, as the Next.js pattern `/api/:path*` means | high (not executed) | Middleware.SignedOutLoginRequestIsRedirected | Middleware.IntendedGateOpensApi |

## Left out

- JSX rendering, the `<audio>` element (`load`, `pause`, the `onPlay`/`onPause` handlers) and `togglePlayPause` in `src/app/page.tsx`: browser UI. The 100 ms delay of the start that `newAudio` schedules with `setTimeout` is not modelled: that start is the separate method `Player.PlayScheduled`, and nothing forces it to follow the `newAudio` that scheduled it. The outcome of `play()` is a parameter.
- React state batching and the interleaving of socket events with playback: concurrency. Each transition is applied atomically to the latest state. In the source, `playNext` (src/app/page.tsx:84-90) builds the new queue from the `queue` of the last render and passes `setQueue` a value, not an updater. A `newAudio` update that lands between that render and an `ended` or skip event is therefore overwritten, and its clip is lost. `PlaybackQueue.ReplayIsFifo`'s "nothing is lost" holds only when every `playNext` runs on the latest render.
- The socket.io client (`src/lib/socket.ts`) and the upload route's form parsing, base64 encoding and global emit. The route's item shape is kept as `PlaybackQueue.UploadedAudio`, the input to enqueue.
- bcrypt, JWT signing with jose, and uuid are foreign libraries. Password comparison is the parameter `matches`. Signing is left out, so a successful login carries the token's claims. Ids, timestamps and hashes are given values.
- An exception that bcrypt raises on a malformed but defined hash string is not modelled; `matches` only answers true or false. An undefined hash is modelled: in the login route it gives a 500, and in the credential checks it gives false.
- File system calls (`readFile`, `mkdir`, `access`, `writeFile`, `appendFile`), `execSync('npm run setup')` and `process.exit` are I/O. A read is a `ReadResult`, and running setup and then reading again is a single `ReadResult`.
- A request body that is not valid JSON, and fields of a non-string type, are not modelled. Request fields are strings.
- UsersRoute.UsersFile.Post: does not model the 500 "Failed to create user" answer, because hashing and file-writing failures are I/O outside the model. The method always appends.
- LoginRoute.RegisteredUserLogsIn, UsersRoute.PostThenGet, UsersRoute.UsersFile.Post: the read-back is promised only for fields free of `,` and newline. `POST` writes its fields unescaped (src/app/api/users/route.ts:57), so a username such as `a,b` shifts the hash into the sixth column, the login route then reads `b` as the hash (src/app/api/users/login/route.ts:22), and that user can never log in.
- UsersRoute.AppendedUserReadBack: holds only for a file that ends with a newline, the shape `POST` keeps (`UsersFile.Valid`). A file that exists but is empty, or that lacks a final newline, would merge the new record into the header or into the last line.
- PlaybackQueue.AudioItem: `duration` is a JavaScript number, modelled as a `real` that is never inspected; floating point is not modelled.
- `src/lib/services/auth.service.ts`, `src/app/api/auth/route.ts`, `src/lib/utils/cookies.ts` and `src/lib/utils/jwt.ts` are thin wrappers over jose, Next.js cookies and environment variables. They are not part of this model.
- The middleware's `matcher: ['/:path*']` only says the gate runs on every route; the model applies `Gate` to any path.
