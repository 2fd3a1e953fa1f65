# journalai: dashboard save and signup validation, modelled in Dafny

journalai is a journaling web app. Its pages call a hosted backend for
authentication and storage. This project models the two pieces of page logic
that make decisions of their own:

- **The dashboard's save transition** (`src/app/dashboard/page.tsx`). The page
  holds a selected date, a title and a content draft, the list of entries
  saved during the visit, and an `isEditing` flag. "New Entry" opens the
  editor. "Save" does three things:
  - it refuses a draft whose title and content are both blank after `trim()`;
  - otherwise it inserts a record `{date, title, content}` into
    `journal_entries`;
  - once the insert resolves, it either prepends the returned row and resets
    the editor, or leaves everything as it was.
- **The signup form** (`src/app/signup/page.tsx`). `handleChange` updates one
  of the four form fields. `handleSignup` goes through these steps in order:
  - it clears the error line;
  - it rejects mismatched passwords, then passwords shorter than six
    characters;
  - it calls `auth.signUp`;
  - when a user comes back, it inserts a `profiles` row and navigates to
    `/dashboard`;
  - it clears `isLoading` in a `finally`.

The backend's answers are inputs to pure functions:
- the insert's `{data, error}` pair (`Dashboard.InsertResponse`);
- `signUp`'s `{user, error}` pair or a thrown exception (`Signup.AuthResult`);
- the profile insert's `{error}` or a thrown exception (`Signup.ProfileResult`).

The JavaScript string primitives the logic depends on are modelled
explicitly:
- `String.prototype.trim` (module `JsText`), which strips the WhiteSpace and
  LineTerminator code points of the ECMAScript language specification;
- `String.prototype.length` (module `JsLength`), which counts UTF-16 code
  units, so a code point above U+FFFF counts as two.

Files:
- `options.dfy`: `Option`.
- `js_text.dfy`: module `JsText`.
- `js_length.dfy`: module `JsLength`.
- `dashboard.dfy`: module `Dashboard`.
- `signup.dfy`: module `Signup`.

## Model

| member | source | states |
|---|---|---|
| JsText.TrimStart | src/app/dashboard/page.tsx:25 | the result is the suffix of the input left after the leading whitespace. Everything dropped is whitespace, and the result does not start with whitespace |
| JsText.TrimEnd | src/app/dashboard/page.tsx:25 | the result is the prefix of the input left before the trailing whitespace. Everything dropped is whitespace, and the result does not end with whitespace |
| JsText.Trim | src/app/dashboard/page.tsx:25 | `trim()` returns an empty string exactly when the input is all whitespace. A non-empty result neither starts nor ends with whitespace |
| JsText.TrimSlice | src/app/dashboard/page.tsx:29-30 | `trim()`'s result is a slice `s[lo..hi]` of its input with only whitespace before `lo` and from `hi` on |
| JsText.TrimAt | src/app/dashboard/page.tsx:29-30 | uniqueness: any slice with only whitespace outside it and non-whitespace first and last characters is `trim()`'s result, so these properties characterise `trim` completely |
| JsText.TrimBounds | src/app/dashboard/page.tsx:29-30 | scanning inwards from both ends for the first and last non-whitespace character finds bounds `lo..hi` whose slice is exactly `trim()`'s result |
| JsText.TrimIdempotent | src/app/dashboard/page.tsx:29-30 | trimming an already trimmed draft changes nothing |
| JsLength.Utf16Length | src/app/signup/page.tsx:36 | `password.length` is between one and two units per character. It equals the character count exactly when no character lies above U+FFFF |
| JsLength.Utf16LengthSingle | src/app/signup/page.tsx:36 | one character's length is its number of UTF-16 code units: two above U+FFFF, one otherwise |
| JsLength.Utf16LengthAppend | src/app/signup/page.tsx:36 | the length of a concatenation is the sum of the lengths, so `password.length` is the sum of its characters' code units |
| Dashboard.DayKeyIgnoresTime | src/app/dashboard/page.tsx:28 | two dates give the same `yyyy-MM-dd` key exactly when they fall on the same local day; the time of day never changes the key |
| Dashboard.Initial | src/app/dashboard/page.tsx:18-22 | the page starts on the current date, with no entries, the editor closed and both drafts empty |
| Dashboard.ToEntry | src/app/dashboard/page.tsx:40 | the entry keeps the returned row's id, title and content; its date falls on the row's day exactly when the UTC offset is not negative |
| Dashboard.OneViewAtATime | src/app/dashboard/page.tsx:54-73 | exactly one of "New Entry" and the editor is rendered, and the two inputs and "Save" are rendered together |
| Dashboard.SaveRequest | src/app/dashboard/page.tsx:25-31 | no record and no store call exactly when title and content are both blank. Otherwise the record has exactly the selected day, the trimmed title and the trimmed content, and at least one of the two texts is non-empty |
| Dashboard.ApplyInsert | src/app/dashboard/page.tsx:39-44 | a success is no error AND a returned row. It puts the row's entry at index 0 and keeps the old entries after it, in order. It empties both drafts and clears `isEditing`. Any other response leaves the whole state unchanged |
| Dashboard.Save | src/app/dashboard/page.tsx:24-45 | the record sent is the one `SaveRequest` builds, and none is sent exactly when the draft is blank. A blank draft leaves the state untouched. The state changes only after a sent record and a successful insert; then the returned row's entry is prepended to the old entries and the editor closes with empty drafts. The entries either stay the same or gain exactly one entry in front. The selected date never changes |
| Dashboard.DateOfKey | src/app/dashboard/page.tsx:40 | `new Date(key)` reads the key as midnight UTC: the local date is on the key's day exactly when the UTC offset is zero or positive, and on the day before west of UTC. The local time of day is the offset taken modulo one day (19:00 for UTC-5) |
| Dashboard.PreviousDay | src/app/dashboard/page.tsx:40 | the day before a day is a different day; for a real calendar day it is a real day whose next day is the given one |
| Dashboard.NextPreviousInverse | src/app/dashboard/page.tsx:40 | on real calendar days (Gregorian months and leap years), the next day is real, and next day and previous day undo each other in both orders |
| Dashboard.WestOfUtcShiftsDay | src/app/dashboard/page.tsx:40 | in UTC-5 the key for 2 May 2024 comes back as 19:00 on 1 May, a different day |
| Dashboard.LocalDateOfKey | src/app/dashboard/page.tsx:28 | reading the key in local time gives local midnight of the key's own day |
| Dashboard.DayKeyRoundTrip | src/app/dashboard/page.tsx:28-40 | formatting a date and reading the key back in local time keeps the day in every zone; the UTC reading keeps it exactly when the offset is not negative |
| Dashboard.Step | src/app/dashboard/page.tsx:54-73 | an event is possible exactly when its control is rendered. "New Entry" sets `isEditing` and nothing else. Each input changes only its own draft. No event changes the UTC offset |
| Dashboard.SaveOnlyWhileEditing | src/app/dashboard/page.tsx:54-69 | a "Save" click is possible exactly in the editing state, and there it is `Save` |
| Dashboard.StepKeepsIdleDraftEmpty | src/app/dashboard/page.tsx:41-43 | every event keeps this invariant: when the editor is closed, both drafts are empty |
| Dashboard.RunKeepsIdleDraftEmpty | src/app/dashboard/page.tsx:18-22 | from the initial state, any sequence of events ends with empty drafts whenever the editor is closed |
| Dashboard.StepOnlyPrepends | src/app/dashboard/page.tsx:40 | one event keeps the old entry list as the tail of the new one, adds at most one entry and keeps the selected date and the UTC offset |
| Dashboard.RunOnlyPrepends | src/app/dashboard/page.tsx:40 | after any sequence of events, the old entry list is still the tail of the new one: entries are never removed, reordered or edited, one save at a time. The selected date and the UTC offset are unchanged |
| Dashboard.SuccessfulSave | src/app/dashboard/page.tsx:39-44 | a "Save" click while editing a non-blank draft, answered with a row and no error, prepends that row's entry, empties the drafts and closes the editor |
| Dashboard.EchoedSaveKeepsDraft | src/app/dashboard/page.tsx:27-40 | when the store saves the record as sent, the new first entry has the returned id and the trimmed drafts. Its date is `new Date` of the selected day's key: on the selected day east of UTC, on the day before west of UTC. Read in local time, the key would give the selected day |
| Dashboard.NewEntrySession | src/app/dashboard/page.tsx:60-72 | "New Entry", typing a non-blank content, then a successful "Save" adds exactly the returned entry in front. The editor ends closed with empty drafts |
| Dashboard.HelloRequest | src/app/dashboard/page.tsx:27-31 | a worked example: content `"  hello\n"` with an empty title is sent as `{selected day, "", "hello"}` |
| Signup.HandleChange | src/app/signup/page.tsx:84-89 | the named field takes the typed value, and the other three fields keep theirs |
| Signup.HandleChangeLastWriteWins | src/app/signup/page.tsx:84-89 | typing twice into one field keeps the second value. Updates to two different fields commute |
| Signup.Validate | src/app/signup/page.tsx:31-39 | the mismatch message appears exactly when the passwords differ. The length message appears exactly when they match and the password is shorter than 6 UTF-16 units. Validation passes exactly when they match and the length is at least 6 |
| Signup.MismatchTakesPrecedence | src/app/signup/page.tsx:31-39 | when both checks fail, the mismatch message is the one reported |
| Signup.AstralPasswordLongEnough | src/app/signup/page.tsx:36 | three characters above U+FFFF pass the 6-character check, because the length is counted in UTF-16 units |
| Signup.Submit | src/app/signup/page.tsx:27-82 | `signUp` is called exactly when validation passes, with the email, the password and the name. A validation failure shows its message and leaves `isLoading` as it was. After any backend call, `isLoading` is false. An auth error shows its own message and does not navigate. A throw shows the generic message and does not navigate. A profile row is inserted exactly when a user came back without an error. Navigation to `/dashboard`, with an empty error, happens exactly when the profile insert did not throw, even if it resolved with an error. The form never changes |
| Signup.SubmitIgnoresStaleError | src/app/signup/page.tsx:29 | the error shown before a submit has no effect on its outcome |
| Signup.SubmitEndsNotLoading | src/app/signup/page.tsx:79-81 | a submit, which can start only when not loading (src/app/signup/page.tsx:203), always ends with `isLoading` false |
| Signup.SubmitEndings | src/app/signup/page.tsx:31-81 | each combination of validation result, auth result and profile result leads to exactly one ending: an error shown, navigation, or staying on the page |

## Left out

- The dashboard page only inserts. It has no date picker wired to `setSelectedDate`, no preview of an existing entry, no update in place, no cancel, no search filter, no mood icons and no mood-analysis patch. The inserted record carries no user id (src/app/dashboard/page.tsx:27-31), and the model keeps it that way.
- Rendering, styling, the password-visibility toggles and the page markup are not modelled. The `disabled={isLoading}` attributes are not modelled either. They only justify that a submit starts with `isLoading` false (`Signup.SubmitEndsNotLoading`).
- The backend calls are not modelled: `auth.signUp`, the `journal_entries` and `profiles` inserts, and `router.push`. Each signup call becomes an input: the value the call resolves to, or the fact that it threw. The `journal_entries` insert becomes only the `{data, error}` value it resolves to. `handleSave` has no `try`/`catch` (src/app/dashboard/page.tsx:33-37), so a throw there is an unhandled rejection that leaves the state as it was; the model has no case for it. `router.push` becomes the `navigateTo` field of the outcome. The `console.error` logging of a failed profile insert has no effect on state and is left out.
- `format(selectedDate, "yyyy-MM-dd")` is abstracted to the local calendar day (`Dashboard.DayKey`): the key keeps the day and forgets the time, and distinct days give distinct keys. The exact digits and padding of the text are not modelled.
- The time zone is one fixed UTC offset per page (`Dashboard.UtcOffset`). Daylight-saving changes, and zone rules that differ between the saved day and today, are not modelled. Dates are local calendar days plus milliseconds into the day.
- Only four columns of the returned row are modelled: id, date, title and content. The other columns spread into the entry by `...data` are not.
- Async interleaving is not modelled, nor a second "Save" or submit issued while the first is still pending. On the real page, two quick "Save" clicks run the same `handleSave` closure, since nothing renders between them. Both spread the same stale `entries` (src/app/dashboard/page.tsx:40), so when both inserts succeed, the second update drops the first new entry from the list although it was stored. `Dashboard.RunOnlyPrepends` ("entries are never removed") holds only for one save at a time. Each operation is modelled as one transition from the state at the click to the state after its calls resolve. The intermediate render with `isLoading` true is not modelled separately.
- Signup.Submit: models `handleSignup` on any form, including forms the browser would never hand to it. All four inputs are `required` (src/app/signup/page.tsx:124, 141, 159, 186), the email input has `type="email"` (line 137), and the form has no `noValidate` (line 106). So an empty field or a malformed email makes the browser show its own prompt without firing `onSubmit`, and any earlier error stays on screen. For an empty password and confirmation, the model shows the short-password message where the page shows the browser's prompt. Browser constraint validation is not modelled.
- The text of an auth error message is whatever the backend supplies, and is not modelled. If that message is empty, the page shows no error; `Signup.SubmitEndings` counts this case as staying on the page.
- `src/app/login/page.tsx` only logs its input. `src/app/page.tsx` and `src/app/page-new.tsx` are static markup. `src/lib/supabase.ts` builds the client and declares types. `src/lib/groq.ts` is a network wrapper whose behaviour lives in a server route that is not part of this model. None of these is modelled.
- JavaScript strings are sequences of UTF-16 code units, while Dafny's `string` holds Unicode scalar values. Lone surrogates therefore cannot be represented. Length is converted explicitly (`JsLength.Utf16Length`). `trim` removes only characters inside the Basic Multilingual Plane, so this difference does not affect it.

## Findings

| source | as written | input that shows it | evidently intended | confidence | as-written member | corrected member |
|---|---|---|---|---|---|---|
| src/app/dashboard/page.tsx:40 | `new Date(data.date)` on the `yyyy-MM-dd` key written from local time at line 28; ECMAScript reads a date-only string as midnight UTC | UTC offset -300 (UTC-5), an entry saved for 2 May 2024: its date is 19:00 on 1 May, local time | the entry's date falls on the day it was saved for, as it would with the key read in local time | medium; not executed. The dashboard page never reads an entry's date, so nothing visible depends on it yet | Dashboard.DateOfKey, Dashboard.WestOfUtcShiftsDay | Dashboard.LocalDateOfKey, Dashboard.DayKeyRoundTrip |

The page transitions (`Dashboard.ToEntry` and everything after it) keep the reading as written, because they model the page as it is; `Dashboard.EchoedSaveKeepsDraft` states both the date the page stores and the day the local reading would give.
