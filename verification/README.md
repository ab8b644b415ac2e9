# Temple gallery site: auth guard and page logic in Dafny

This project models the decision logic of a small temple photo-gallery
website that runs on a hosted database, storage and auth service. The
model covers:

- the configuration predicate that decides whether the backend may be
  called at all (`Config`);
- the session-validity test (`Sessions`). The source writes it twice, in
  the auth provider and in the protected-route wrapper, with identical
  bodies. Here it is defined once and used by both;
- the auth provider as a state machine over `(user, session, loading)`
  (`AuthStore`). Backend answers and pushed auth-change notifications are
  events that carry the clock reading, and the backend calls it makes are
  returned as commands;
- the protected-route decision ladder (`RouteGuard`);
- the page helpers: avatar initials, removing a selected file, the file
  extension, the upload form schema and the upload-then-insert sequence
  (`Admin`); contact loading, the two contact cards and digit stripping
  (`Contacts`);
  gallery loading and the row-to-view mapping (`Photos`).

The shared modules are `Js`, which models nullable values and the `||`
fallback, and `Text`, which models `trim`, `split` (with `Join` for its
round trip), ASCII upper-casing and decimal rendering.

The clock (`Date.now()`), backend answers and the configuration status are
parameters. Events are applied one after another, so the last write wins.

Details of the code the model keeps:

- A session whose `expires_at * 1000` equals the current time is still
  valid. The code rejects only when it is strictly earlier (`<`).
- An `expires_at` of `0` skips the expiry check, because `0` is falsy.
- The URL test is the literal prefix `http`, not an HTTP(S) scheme check.
  For example, `httpx:` passes.
- The effect's cleanup, which unsubscribes, exists only when the backend is
  configured. An unconfigured unmount issues nothing.

## Model

| member | source | states |
|---|---|---|
| Config.IsConfigured | src/lib/supabase.ts:7-16 | configured exactly when both settings are strings with a non-whitespace character, neither equals its placeholder (compared untrimmed), and the URL begins with `http` |
| Config.MakeClient | src/lib/supabase.ts:18-35 | the client is built from the settings exactly when they are configured, otherwise it is the invalid stand-in; either way its URL starts with `http` |
| Config.MissingSettingNotConfigured | src/lib/supabase.ts:8-10 | an absent or non-string setting means not configured |
| Config.BlankSettingNotConfigured | src/lib/supabase.ts:11-12 | a whitespace-only setting means not configured |
| Config.PlaceholderComparedUntrimmed | src/lib/supabase.ts:13-14 | placeholder comparison is exact: the key placeholder plus a space is accepted |
| Config.PrefixIsNotASchemeCheck | src/lib/supabase.ts:15 | `httpx:` passes the URL test |
| Text.Trim | src/lib/supabase.ts:11-12 | `trim()` yields the empty string exactly when the input is all whitespace |
| Sessions.IsValidSession | src/contexts/AuthContext.tsx:33-48 | valid exactly when the session and its user are present, it is not expired (a non-zero expiry times 1000 strictly before now), and the token has a non-whitespace character |
| Sessions.ExpiryBoundary | src/contexts/AuthContext.tsx:37-41 | valid at the exact expiry instant, invalid one millisecond later |
| Sessions.NoExpiryNeverExpires | src/contexts/AuthContext.tsx:37 | an absent or zero expiry makes validity independent of the clock |
| Sessions.ValidityDecays | src/contexts/AuthContext.tsx:37-41 | a session valid at some time was valid at every earlier time |
| Sessions.BlankTokenInvalid | src/components/ProtectedRoute.tsx:22-25 | a whitespace-only token makes the session invalid (same test in the guard's copy) |
| AuthStore.Publish | src/contexts/AuthContext.tsx:90-100 | validate then publish: loading ends; a session is held exactly when valid, and then with its own user |
| AuthStore.Next | src/contexts/AuthContext.tsx:50-123 | a fetched session and a notified session each publish what validation makes of them (the session with its user when valid, nobody otherwise); a fetch error and an unconfigured mount sign out; every event preserves "session absent iff user absent"; loading never returns and ends on any backend delivery; non-writing events leave the state alone; nothing is issued unconfigured; configured, sign-in calls `signInWithPassword` with the given email and password, sign-out calls `signOut` and unmount unsubscribes; a backend delivery issues nothing but possibly the purge, which is issued iff the fetched session is present but invalid |
| AuthStore.SignInReply | src/contexts/AuthContext.tsx:105-116 | unconfigured sign-in reports "Supabase is not configured"; otherwise the backend's error is returned |
| AuthStore.WriteForgetsPriorState | src/contexts/AuthContext.tsx:60-100 | the outcome of a fetch result or notification does not depend on the prior state |
| AuthStore.SignInAndOutNeverWrite | src/contexts/AuthContext.tsx:105-123 | sign-in and sign-out never change user, session or loading, and issue nothing when unconfigured |
| AuthStore.MountOutcome | src/contexts/AuthContext.tsx:51-57 | unconfigured mount yields `(null, null, false)` with no calls; configured mount requests the session and subscribes |
| AuthStore.FetchErrorFailsClosed | src/contexts/AuthContext.tsx:62-67 | a fetch error clears user and session, ends loading and purges nothing |
| AuthStore.ExpiredFetchedSessionIsPurged | src/contexts/AuthContext.tsx:71-79 | a fetched session expired ten seconds ago leaves nobody signed in and triggers the purge |
| AuthStore.RunKeepsConsistent | src/contexts/AuthContext.tsx:80-83 | over any sequence of events, session and user stay both absent or both present |
| AuthStore.LoadingSettles | src/contexts/AuthContext.tsx:84-99 | once loading ends it never comes back, and any backend delivery ends it |
| AuthStore.NonWritingKeepsState | src/contexts/AuthContext.tsx:105-123 | runs of sign-in, sign-out, configured mount and unmount leave the state unchanged |
| AuthStore.LastWriteWins | src/contexts/AuthContext.tsx:60-100 | the final state is what the last writing event published, whatever preceded it |
| AuthStore.FinalStateIsLastPublished | src/contexts/AuthContext.tsx:60-100 | after any run, the state is the validation of the session the last writing event delivered, judged at that event's time (nobody for a fetch error or an unconfigured mount) |
| AuthStore.LastDeliveryDecides | src/contexts/AuthContext.tsx:71-99 | when the last writing event delivered session `s`, the provider ends holding `s` with its user iff `s` was valid when handled, and signed out otherwise |
| AuthStore.UnconfiguredIsInert | src/contexts/AuthContext.tsx:51-56 | unconfigured, page-side events never reach the backend, and after mount the state is `(null, null, false)` |
| AuthStore.SessionProvenance | src/contexts/AuthContext.tsx:80-83 | any held session was delivered by a fetch or notification during the run and was valid when delivered |
| AuthStore.LateNotificationSignsIn | src/contexts/AuthContext.tsx:90-100 | an empty fetch followed by a valid notification ends signed in |
| AuthStore.StaleFetchOverwritesNotification | src/contexts/AuthContext.tsx:60-85 | a fetch resolving after a valid notification overwrites it with nobody signed in |
| RouteGuard.Guard | src/components/ProtectedRoute.tsx:32-58 | loading indicator iff loading; children iff not loading, configured, user and session present and session valid; every redirect goes to `/login` with replace |
| RouteGuard.OtherwiseRedirect | src/components/ProtectedRoute.tsx:44-56 | when not loading and any of the render conditions fails, the result is the replacing redirect to `/login` |
| RouteGuard.GuardOnConsistentState | src/components/ProtectedRoute.tsx:49-56 | on provider states the user test adds nothing: render iff not loading, configured and the held session is valid now |
| RouteGuard.RenderNeedsDeliveredSession | src/components/ProtectedRoute.tsx:29-58 | children render only when configured, for a session the backend delivered valid during the run and still valid now |
| RouteGuard.InitialShowsLoading | src/components/ProtectedRoute.tsx:32-41 | before the first resolution only the loading indicator shows |
| RouteGuard.RenderDecays | src/components/ProtectedRoute.tsx:54-56 | a state that renders at some time renders at every earlier time |
| Text.JoinSplit | src/pages/Admin.tsx:57 | joining the pieces of a split with the separator gives back the string |
| Text.SplitJoin | src/pages/Admin.tsx:57 | splitting a join of separator-free pieces gives back the pieces |
| Text.SplitSeparatorFree | src/pages/Admin.tsx:57 | no piece of a split contains the separator |
| Text.SplitLast | src/pages/Admin.tsx:105 | `split(sep).pop()` equals the last piece, defined independently by scanning from the end of the string |
| Text.LastPieceShape | src/pages/Admin.tsx:105 | the last piece is a separator-free suffix, preceded by the separator whenever it is shorter than the string |
| Text.LastPieceBounds | src/pages/Admin.tsx:105 | the last piece is shorter than the string exactly when the string holds the separator |
| Text.LastPieceAfter | src/pages/Admin.tsx:105 | only the text after any separator decides the last piece |
| Admin.LocalPart | src/pages/Admin.tsx:57 | the first `@`-piece is the `@`-free prefix ending at the first `@` |
| Admin.Initials | src/pages/Admin.tsx:55-62 | `"A"` for an absent or empty email; with two non-empty dot-pieces in the local part, their first letters upper-cased; otherwise the email's first letter upper-cased |
| Admin.InitialsAsWritten | src/pages/Admin.tsx:55-62 | `"A"` for a falsy email; it throws exactly when the local part starts with a dot followed by a dot or by nothing; when exactly one of the first two dot-pieces is empty, that piece's initial is the text `UNDEFINED` (`.a@x` gives `UNDEFINEDA`, `j.@x` gives `JUNDEFINED`) |
| Admin.SecondPieceHead | src/pages/Admin.tsx:57-59 | which dot-pieces are empty, stated on the local part itself, and where their first characters come from |
| Admin.InitialsAgreeOutsideEmptyPieces | src/pages/Admin.tsx:55-62 | wherever no empty piece is indexed, the corrected initials equal the source's |
| Admin.TrailingDotShowsUndefined | src/pages/Admin.tsx:59 | `j.@x` yields `JUNDEFINED` as written and `J` corrected |
| Admin.LoneDotThrows | src/pages/Admin.tsx:59 | `.@x` throws as written and yields `.` corrected |
| Admin.RemoveFile | src/pages/Admin.tsx:91-95 | an in-range index removes exactly that position, keeping the others in order; any other index leaves the list unchanged |
| Admin.RemoveFileMultiset | src/pages/Admin.tsx:92 | removal takes out exactly one occurrence of the removed file |
| Admin.Extension | src/pages/Admin.tsx:105 | `split(".").pop()` is the last piece of the name, defined independently by scanning from its end |
| Admin.ExtensionShape | src/pages/Admin.tsx:105 | the extension is the dot-free suffix after the last dot, or the whole name when there is no dot |
| Admin.ValidateForm | src/pages/Admin.tsx:29-35 | the form is valid iff a date is given, an occasion (when given) is non-empty and at least one photo is chosen; an empty photo list reports its message |
| Admin.Uploads | src/pages/Admin.tsx:104-114 | the upload calls for the first `n` photos, one per photo in order, each into the date's folder with that photo's extension |
| Admin.Entries | src/pages/Admin.tsx:121-125 | the row entries for the first `n` photos, in order: each upload's public URL with its file's name as alt text |
| Admin.LeadingUploaded | src/pages/Admin.tsx:104-118 | the number of leading successful uploads: all before it succeeded, the one at it failed |
| Admin.UploadWhileAccepted | src/pages/Admin.tsx:103-127 | the loop uploads photos in order and stops exactly at the first rejected upload, having made one upload call and collected one row entry per accepted photo |
| Admin.Submit | src/pages/Admin.tsx:97-159 | uploads run in file order up to and including the first failure, which ends the submission with its message (or the fallback); only when every upload succeeded is one row inserted, carrying one entry per file in order; the toast then reports the count, or the database error or fallback; the selection clears and the form resets (no date, empty occasion, no photos) only on success, and both are kept on failure; uploading is false at the end |
| Admin.ResetFieldsInvalid | src/pages/Admin.tsx:145-149 | the reset values fail every rule of the schema, the empty occasion included, so the form must be filled in again before it submits |
| Contacts.FetchContactInfo | src/pages/Contacts.tsx:21-55 | loading ends on every path; unconfigured sets the message without using any answer; errors other than `PGRST116` set their message (or the fallback) and keep the info; otherwise a returned row replaces the info |
| Contacts.UnconfiguredIgnoresAnswer | src/pages/Contacts.tsx:23-27 | unconfigured, the outcome is the same for every answer, so no query matters |
| Contacts.FetchErrorExactly | src/pages/Contacts.tsx:21-55 | from the initial page, an error is reported iff the backend is unconfigured or answers with an error other than `PGRST116` |
| Contacts.NoRowsIsNotAnError | src/pages/Contacts.tsx:36-45 | a `PGRST116` answer leaves no error and the empty info, so both cards show their "not available" note |
| Contacts.WhatsAppNumber | src/pages/Contacts.tsx:58 | the value of `whatsappNumber`: `+1234567890` for a null or empty number, otherwise the stored number |
| Contacts.EmailAddress | src/pages/Contacts.tsx:59 | the value of `emailAddress`: `contact@templevista.com` for a null or empty email, otherwise the stored email |
| Contacts.WhatsAppCard | src/pages/Contacts.tsx:121-147 | the card shows the number and its chat link iff the stored number is non-empty, the "not available" note otherwise |
| Contacts.EmailCard | src/pages/Contacts.tsx:165-190 | the card shows the address and its `mailto:` link iff the stored email is non-empty, the "not available" note otherwise |
| Contacts.DefaultsNeverShown | src/pages/Contacts.tsx:57-59 | the default number and address never reach the page: a shown card carries the stored value, and the chat link the stored number's digits |
| Contacts.DigitsOnly | src/pages/Contacts.tsx:66 | the result has digits only, is no longer than the input, and is the input itself when that has digits only |
| Contacts.DigitsOnlyAppend | src/pages/Contacts.tsx:126 | stripping distributes over concatenation |
| Contacts.DigitsOnlySingle | src/pages/Contacts.tsx:126 | a single character is kept iff it is a digit |
| Contacts.DigitsOnlyIdempotent | src/pages/Contacts.tsx:66 | stripping twice equals stripping once |
| Contacts.DigitsOnlyCounts | src/pages/Contacts.tsx:126 | each digit keeps its number of occurrences and no other character survives |
| Contacts.WhatsAppLink | src/pages/Contacts.tsx:126 | the link is the `wa.me` prefix followed by exactly the digits of `whatsappNumber`, in order |
| Text.Decimal | src/pages/Photos.tsx:70 | the rendering of a number is a non-empty digit string without a leading zero whose digits denote that number |
| Text.DecimalInjective | src/pages/Photos.tsx:68 | distinct indices render differently |
| Photos.MapPhotos | src/pages/Photos.tsx:67-71 | one photo per row, in order; the id is the section id, `-` and the index; the URL is copied; alt is kept when non-empty, else `Photo <index+1>` |
| Photos.MapSection | src/pages/Photos.tsx:63-72 | id and date are copied; the title is the occasion when non-empty and absent otherwise; the photos are the row's photos mapped in order |
| Photos.MapSections | src/pages/Photos.tsx:63 | one section per row, in order |
| Photos.PhotoIdInjective | src/pages/Photos.tsx:68 | equal photo ids imply the same section id and the same index |
| Photos.PhotoIdsDistinctInSection | src/pages/Photos.tsx:67-68 | photo ids within a section are pairwise distinct |
| Photos.PhotoIdsDistinctAcrossSections | src/pages/Photos.tsx:63-72 | with distinct section ids, photo ids are distinct across the gallery |
| Photos.FetchPhotos | src/pages/Photos.tsx:44-84 | loading ends on every path; unconfigured or a query error sets the message (or the fallback) and keeps the sections; otherwise returned rows replace the sections with their mapping |
| Photos.FetchedPhotoIdsDistinct | src/pages/Photos.tsx:62-73 | after a successful fetch of rows with distinct ids, every photo on the page has its own id |
| Photos.FetchReplacesSections | src/pages/Photos.tsx:62-74 | a fetch that returns rows replaces the sections with exactly one section per row, whatever was shown before |
| Photos.UnconfiguredIgnoresAnswer | src/pages/Photos.tsx:46-50 | unconfigured, the outcome is the same for every answer |

## Left out

- Rendering, styling, toasts beyond their text, icons and the map embed are presentation only.
- The backend client library is left out. Session fetch, subscription, sign-in, sign-out, storage upload, public URLs and table queries are not modelled; their answers are parameters or events, and the calls are commands.
- The race between the initial session fetch and pushed notifications is not interleaved. Events apply in sequence and the last write wins. `AuthStore.StaleFetchOverwritesNotification` shows the consequence.
- Logging (`console.warn`, `console.error`) and the promise-rejection swallowing of the purge are left out. `PurgeSession` is modelled as a command whose answer is never consumed.
- `Date.now()` is a parameter. File names built from `Date.now()` and `Math.random()`, the `format` of the date and `toLocaleDateString` are left out: they depend on the clock, randomness or the locale. The form's date is taken already rendered as `yyyy-MM-dd`, and an upload's file name is represented by its extension.
- `window.open`, `mailto:` navigation, `encodeURIComponent` and object URLs are browser side effects and are left out. The WhatsApp link is modelled without its message query.
- The logout handler (sign out, navigate to `/login`, toast) and the file-input change handler (replace the selection) are left out: each only forwards to a modelled operation or replaces a list.
- zod and react-hook-form internals are left out beyond the three schema rules.
- `Sessions.IsValidSession`: `expires_at` is an integer, so a non-integer or `NaN` expiry and floating-point overflow of `expires_at * 1000` are not modelled.
- `Text.Upper`: upper-casing covers ASCII letters only. Full Unicode `toUpperCase`, which can change string length, is not modelled. Characters are Unicode scalar values, not UTF-16 code units.
- `Config.IsConfigured`: a non-string setting is modelled as truthy. Its truthiness never matters, because the `typeof` test rejects it.
- The static home page and the build configuration contain no logic and are not part of this model.

## Findings

| source | as written | input that shows it | evidently intended | confidence | as-written member | corrected member |
|---|---|---|---|---|---|---|
| src/pages/Admin.tsx:59 | the first characters of the first two dot-pieces are concatenated without checking that the pieces are non-empty; an empty piece's character is `undefined` | `j.@x` gives `JUNDEFINED`; `.@x` gives `NaN`, and `toUpperCase` throws (`Admin.TrailingDotShowsUndefined`, `Admin.LoneDotThrows`) | two initials only from non-empty pieces, otherwise the one-letter fallback | medium, not executed (depends on the auth service accepting such addresses) | Admin.InitialsAsWritten | Admin.Initials |
