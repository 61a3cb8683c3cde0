# Event registration: registrant store, form logic, delete confirmation and countdown

This project models the logic of a client-side event-registration app written in
React and Redux, in Dafny, and proves properties of the model. It covers:

- **The registrants slice** (`RegistrantSlice`). This is an insertion-ordered list of
  `Registrant` records with two reducers. `addRegistrant` pushes its payload.
  `deleteRegistrant` keeps only the records whose `id` differs from the payload.
  The slice is the class `RegistrantStore`, whose field `list` the two methods reassign.
  The filter is the pure function `WithoutId`, and lemmas about it cover order,
  multiplicity, length, idempotence, commutation and the add-then-delete round trip.
- **The registration form** (`TextPatterns`, `RegistrantForm`).
  - `validate` is a pure function from the form fields to a field-keyed message map.
    It keeps the source's coupling: a blank last name also puts "Please enter E-mail address" on `email`.
  - JavaScript's `trim`, the e-mail pattern `^\S+@\S+\.\S+$` and the phone pattern
    `^[6-9]\d{9}$` are character-level predicates. Each has a second, independent
    formulation proved equivalent: a decision procedure for the e-mail pattern, and
    "a number from 6000000000 to 9999999999" for the phone.
  - The component's state (`form`, `errors`, `preview`) is the class `RegistrationForm`.
    Its methods are `handleChange` (with the kid-count reset rule), the per-index
    kid-age edit, `handleBlur` and `handleSubmit`. `handleSubmit` dispatches only when
    validation is empty, builds the record, and resets the form.
    `|kidAges| == kids` is the class invariant.
- **The list page** (`RegistrantList`).
  - The selector falls back to an empty list when the state, the slice or its list is missing.
  - The count shown is the list's length.
  - The delete confirmation is a small state machine over `selectItem`. The class is
    `RegistrantListPage`, and the modal is open exactly when the selection is non-empty.
- **The countdown arithmetic** (`Countdown`). It computes the clamped difference
  `max(0, target - now)` in integer milliseconds, the whole days in it, and the whole
  hours left over.

`Scenarios` holds client code that walks through the end-to-end registration and
deletion using the contracts alone, and a few concrete validation examples.

Notable behaviours of the code that the model keeps:

- An empty e-mail with a non-blank last name gets "Enter a valid email": the pattern is
  tested on every e-mail, not only on non-empty ones.
- The store never checks ids for uniqueness. Adding a duplicate id appends it, and
  deleting an id removes every record that carries it.
- A new kid count always rebuilds `kidAges` as zeros. Ages are never kept or truncated.
- The messages are the code's own strings, such as "Please enter First name".

## Model

| member | source | states |
|---|---|---|
| `RegistrantSlice.RegistrantStore.constructor` | src/store/registrantSlice.ts:22-24 | the store starts with an empty list |
| `RegistrantSlice.RegistrantStore.AddRegistrant` | src/store/registrantSlice.ts:30-32 | the payload becomes the new last element and all earlier ones are unchanged; the number of records with the payload's id grows by one even if that id was already present |
| `RegistrantSlice.RegistrantStore.DeleteRegistrant` | src/store/registrantSlice.ts:33-35 | the new list is the old one filtered by id, and no record with that id remains |
| `RegistrantSlice.WithoutId` | src/store/registrantSlice.ts:34 | the filtered list is no longer than the original; each record in it comes from the original and has a different id |
| `RegistrantSlice.WithoutIdConcat` | src/store/registrantSlice.ts:34 | filtering distributes over concatenation, so the kept records keep their relative order |
| `RegistrantSlice.WithoutIdMultiplicity` | src/store/registrantSlice.ts:34 | every record with another id is kept as often as it occurred; every record with the id is removed, not just the first |
| `RegistrantSlice.WithoutIdLength` | src/store/registrantSlice.ts:34 | the list shrinks by exactly the number of records carrying the id |
| `RegistrantSlice.WithoutIdUnchangedIffAbsent` | src/store/registrantSlice.ts:34 | deleting leaves the list unchanged if and only if no record carries the id |
| `RegistrantSlice.WithoutIdKeepsAbsent` | src/store/registrantSlice.ts:34 | deleting an absent id returns the same list |
| `RegistrantSlice.CountWithIdZeroIffAbsent` | src/store/registrantSlice.ts:34 | no record is counted for an id if and only if no record carries it |
| `RegistrantSlice.WithoutIdIdempotent` | src/store/registrantSlice.ts:34 | deleting an id twice equals deleting it once |
| `RegistrantSlice.WithoutIdCommutes` | src/store/registrantSlice.ts:34 | two deletions give the same list in either order |
| `RegistrantSlice.AddThenDeleteRestores` | src/store/registrantSlice.ts:30-35 | appending a record with a new id and then deleting that id restores the previous list |
| `RegistrantSlice.CountWithIdAppend` | src/store/registrantSlice.ts:31 | appending adds one record with the payload's id, whatever was there before |
| `TextPatterns.IsWhitespace` | src/components/RegistrantForm.tsx:37-41 | the whitespace of `trim()` and of `\s`: the ECMAScript WhiteSpace and LineTerminator code points (tab, LF, VT, FF, CR, space, U+00A0, U+1680, U+2000-U+200A, U+2028, U+2029, U+202F, U+205F, U+3000, U+FEFF) |
| `TextPatterns.TrimStart` | src/components/RegistrantForm.tsx:37 | the result is a suffix of the input; only whitespace is cut, and it starts with a non-whitespace character or is empty |
| `TextPatterns.TrimEnd` | src/components/RegistrantForm.tsx:37 | the result is a prefix of the input; only whitespace is cut, and it ends with a non-whitespace character or is empty |
| `TextPatterns.Trim` | src/components/RegistrantForm.tsx:37-38 | the result is a contiguous part of the input, only whitespace lies outside it, and it neither starts nor ends with whitespace |
| `TextPatterns.TrimEmptyIffBlank` | src/components/RegistrantForm.tsx:37-38 | the trimmed string is empty if and only if every character is whitespace |
| `TextPatterns.EmailPattern` | src/components/RegistrantForm.tsx:41 | the literal reading of `^\S+@\S+\.\S+$`: an `@` at position i >= 1 and a `.` at position j with i + 1 < j < length - 1, and no whitespace in the three pieces around them |
| `TextPatterns.IndexOf` | src/components/RegistrantForm.tsx:41 | returns the first position of the character at or after the start, or the length when it does not occur there |
| `TextPatterns.IsEmail` | src/components/RegistrantForm.tsx:41 | the one-pass check holds if and only if the string splits into non-empty whitespace-free runs around an `@` and then a `.`, as `^\S+@\S+\.\S+$` requires |
| `TextPatterns.EmailPiecesHaveNoWhitespace` | src/components/RegistrantForm.tsx:41 | a string matching the e-mail pattern contains no whitespace at all |
| `TextPatterns.PhonePattern` | src/components/RegistrantForm.tsx:44 | the literal reading of `^[6-9]\d{9}$`: exactly ten characters, the first in 6-9 and the other nine ASCII digits |
| `TextPatterns.DigitsValueBound` | src/components/RegistrantForm.tsx:44 | an n-digit string spells a number below 10^n |
| `TextPatterns.PhoneAsNumber` | src/components/RegistrantForm.tsx:44 | `^[6-9]\d{9}$` holds if and only if the string is ten ASCII digits spelling a number from 6000000000 to 9999999999 |
| `RegistrantForm.Validate` | src/components/RegistrantForm.tsx:34-48 | keys are a subset of firstName, lastName, email, phone. There is a firstName (lastName) error iff that name is all whitespace. A blank lastName always puts the e-mail-required message on email, whatever the e-mail. Otherwise email gets "Enter a valid email" iff the untrimmed e-mail fails its pattern, the empty e-mail included. phone gets an error iff it fails its pattern |
| `RegistrantForm.Messages` | src/components/RegistrantForm.tsx:35-47 | given the outcomes of the four tests, each key appears exactly when its test fails, with its message; the e-mail key appears when the last name is blank or the e-mail is bad, and carries the "required" message in the first case and the "invalid" one otherwise |
| `RegistrantForm.ValidateEmptyIffAdmissible` | src/components/RegistrantForm.tsx:57-58 | validation returns no keys if and only if both names are non-blank, the e-mail matches and the phone matches |
| `RegistrantForm.DefaultFormFailsEveryRule` | src/components/RegistrantForm.tsx:13-23 | the defaults have `kids = 0` and `kidAges = []`, and validating them flags all four fields, the e-mail with the "required" message |
| `RegistrantForm.ChangeForm` | src/components/RegistrantForm.tsx:98-109 | each change writes its own field only; a new kid count `n` sets `kids = n` and `kidAges` to `n` zeros, discarding the old ages; `|kidAges| == kids` is preserved |
| `RegistrantForm.MakeRegistrant` | src/components/RegistrantForm.tsx:62-89 | the dispatched record carries the form's fields unchanged plus the given id and createdAt; its image is the preview unless the preview is absent or empty |
| `RegistrantForm.RegistrationForm.constructor` | src/components/RegistrantForm.tsx:13-25 | the form starts at the defaults (`kids = 0`, `kidAges = []`, attending "Yes"), with no errors and no preview |
| `RegistrantForm.RegistrationForm.Valid` | src/components/RegistrantForm.tsx:98-105 | the form's invariant: `kidAges` has exactly `kids` entries |
| `RegistrantForm.RegistrationForm.PreviewLoaded` | src/components/RegistrantForm.tsx:30 | the loaded data URL becomes the preview; form and errors are untouched |
| `RegistrantForm.RegistrationForm.HandleChange` | src/components/RegistrantForm.tsx:98-109 | the form becomes the updater's result, errors and preview are untouched, and `|kidAges| == kids` still holds |
| `RegistrantForm.RegistrationForm.EditKidAge` | src/components/RegistrantForm.tsx:289-293 | only age `index` changes, to the chosen value; the length and every other field stay, so `|kidAges| == kids` is preserved |
| `RegistrantForm.RegistrationForm.HandleBlur` | src/components/RegistrantForm.tsx:50-52 | the field's message becomes "" and every other entry stays |
| `RegistrantForm.RegistrationForm.HandleSubmit` | src/components/RegistrantForm.tsx:54-96 | dispatches iff validation is empty. Otherwise errors become the validation result and nothing else changes. On success exactly the built record is appended to the store, the form and preview are reset, and the errors are left as they were |
| `RegistrantForm.RegistrationForm.Admit` | src/components/RegistrantForm.tsx:62-94 | the success path: exactly the built record is appended to the store, it keeps `|kidAges| == kids`, the form and preview are reset, and the errors are left alone |
| `RegistrantList.SelectRegistrants` | src/pages/RegistrantList.tsx:10-11 | a present list is returned as it is; a missing state, slice or list gives the empty list |
| `RegistrantList.DisplayedCount` | src/pages/RegistrantList.tsx:24-27 | the heading's count is the length of the store's list when state, slice and list are present, and 0 when any of them is missing |
| `RegistrantList.RegistrantListPage.ModalOpen` | src/pages/RegistrantList.tsx:164-165 | `!!selectItem`: true exactly when `selectItem != ""` |
| `RegistrantList.RegistrantListPage.constructor` | src/pages/RegistrantList.tsx:13 | the page starts with no selection and the modal closed |
| `RegistrantList.RegistrantListPage.SelectForDeletion` | src/pages/RegistrantList.tsx:50 | clicking ✕ selects that item's id, which opens the modal for any non-empty id; the store is not a party to it |
| `RegistrantList.RegistrantListPage.Cancel` | src/pages/RegistrantList.tsx:175 | Cancel clears the selection and closes the modal without touching the store |
| `RegistrantList.RegistrantListPage.HandleDelete` | src/pages/RegistrantList.tsx:15-18 | the store deletes the selected id, then the selection is cleared and the modal closes |
| `Countdown.TargetDateIsNewYearsEve` | src/components/Countdown.tsx:5 | the target constant is 14:30 UTC (20:00 at +05:30) on day 20453 after the epoch, which is 2025-12-31 |
| `Countdown.OneDayBeforeTarget` | src/components/Countdown.tsx:5-19 | one day before the app's target the countdown shows 1 day and 0 hours |
| `Countdown.Remaining` | src/components/Countdown.tsx:15-16 | the difference is never negative, never below `target - now`, and is either 0 or `target - now` |
| `Countdown.Days` | src/components/Countdown.tsx:18 | `days` is the whole number of 86400000 ms periods in the difference |
| `Countdown.Hours` | src/components/Countdown.tsx:19 | `hours` lies in 0..23 and is the whole number of hours in what is left after the whole days |
| `Countdown.HourSplit` | src/components/Countdown.tsx:18-19 | dividing by hours and then by 24 equals dividing by days, and the leftover after the days is the leftover hours plus the leftover milliseconds |
| `Countdown.DaysAndHours` | src/components/Countdown.tsx:18-19 | `days * 24 + hours` is the whole number of hours in the difference |
| `Countdown.PastTarget` | src/components/Countdown.tsx:15-19 | once `now >= target`, both days and hours are 0 |
| `Countdown.DaysNonIncreasing` | src/components/Countdown.tsx:15-18 | a later `now` never shows more days |
| `Scenarios.AshaAdmissible` | src/components/RegistrantForm.tsx:34-48 | the end-to-end draft (Asha Rao, asha@x.com, 9123456780, one kid aged 5) passes validation |
| `Scenarios.BlankLastNameFlagsEmail` | src/components/RegistrantForm.tsx:38-40 | with an empty last name, the well-formed e-mail a@b.com is still flagged as missing |
| `Scenarios.PhoneLeadingDigit` | src/components/RegistrantForm.tsx:44-45 | 1234567890 is rejected as a phone, while the names and the e-mail pass |

## Left out

- Rendering, Tailwind classes and framer-motion animation are presentation with no state rules. So are the toast, `navigate("/list")` and the Redux `useDispatch`/`useSelector` wiring. A dispatch is a direct call on a `RegistrantStore` that the method is given.
- The router and app setup in `src/main.tsx` and `src/App.tsx` are plumbing and are not part of this model.
- redux-persist storage is persistence I/O. The store configuration file is not part of this model. Only the selector's empty-list fallback on a partial state is modelled.
- `src/components/Modal.tsx` locks page scrolling and `src/components/Portal.tsx` wraps a DOM portal. Both are DOM effects.
- `src/components/Header.tsx` has a menu toggle and path-based styling, with nothing to prove.
- The `FileReader` effect that turns the chosen image file into a preview runs asynchronously in the browser. `RegistrationForm.PreviewLoaded` stands for its `onload` callback. The `image` file state itself is not modelled.
- `crypto.randomUUID()` and `new Date().toISOString()` are nondeterministic foreign calls. They become the `id` and `createdAt` parameters of `HandleSubmit`. Id uniqueness is not proved.
- The countdown's `setInterval` tick and `Date.now()` are timer I/O. `now` and `target` are integer milliseconds given to the functions. `TargetDate` is the source's target instant in that unit, and the lemmas about it apply the functions to it. JavaScript floating point is not modelled: with an integer, non-negative `diff`, `Math.floor(diff / ms)` is integer division, and `Math.floor((diff / 3600000) % 24)` is `(diff / 3600000) % 24`.
- RegistrantForm.ChangeForm: it takes the adult count as a number. The source stores the select's raw string value in `adults`, because it passes `e.target.value` unchanged. The kid count and the kid ages, which the source converts with `Number(...)`, are likewise taken as the numbers the selects offer (0 to 5 and 0 to 17), so string-to-number parsing is not modelled.
- RegistrantForm.FieldChange has no constructor for a generic `kidAges` change. The only call that passes `kidAges` is the per-index edit, so `RegistrationForm.EditKidAge` models that path. Its `index` lies within the list because the source renders one select per existing age.
- Strings are sequences of Unicode code points, while JavaScript strings are UTF-16 code units. The whitespace set and `\d` lie in the Basic Multilingual Plane, so the patterns and `trim` decide the same strings either way.
