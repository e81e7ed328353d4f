# Signup form: state, validation and submission

A model of the signup form component in `src/Components/SignupForm.js`.
The component keeps a `user` record of ten fields and an `errors` map.
It updates one field per change event (`handleChange`).
It checks the record with `validate`.
On submit it replaces the displayed errors with the validation result, and posts the record only when that result is empty.
A successful post navigates to `/user-info/<userId>`; a failed post is only logged.
The Start Year and End Year selects offer two generated year ranges.

Modules, one per concern of the component:

- `JsStrings` (`js_strings.dfy`): the JavaScript string semantics the form relies on. It covers `trim` and the `\s` class, both over ECMAScript WhiteSpace and LineTerminator code points. It covers `length`, counted in UTF-16 code units. It covers the unanchored test `/\S+@\S+\.\S+/`.
- `FormState` (`form_state.dfy`): the field enum `Field`, in the record's key order (`Fields`), the record `User`, and the `handleChange` updater `ApplyChange`.
- `Validator` (`validator.dfy`): `validate` as an imperative method `Validate`, with a loop over `Fields`. It is proved equal to the specification function `Validation`.
- `YearRanges` (`years.dfy`): `startYears` and `endYears` as functions of `currentYear`.
- `Submission` (`submission.dfy`): a class `SignupForm` that holds `user`, `errors`, the route navigated to and the list of posted bodies. Its methods are `HandleChange` and `HandleSubmit`.

Modelling decisions:

- A field holds a JavaScript value, `Str(s)` or `Bool(b)`, rather than a fixed type. `handleChange` writes `checked` into the named field when the input is a checkbox, and `value` otherwise, whatever field is named. `validate` then looks only at fields whose `typeof` is `"string"`.
- The shape of the record literal (nine strings and a boolean `international`) is the invariant `WellTyped`. It holds initially and is kept by every event the rendered form can send (`FromFormInput`), because the only checkbox is `international`.
- Error maps are keyed by `Field`. Their keys are always record keys: change events name one of the form's inputs, and every input's `name` is a record key.
- The gate `if (!errors)` is modelled as written. JavaScript converts every object to `true`, the empty `{}` included, so `!errors` is always false. The email, password-length and password-match checks (`StructuralChecks`) are modelled and proved unreachable. `validate` only ever reports empty fields. A record with `email = "not-an-email"`, a three-character password and a different confirmation passes validation (`NotAnEmailPasses`).
- The post's outcome is a parameter of `HandleSubmit`: `Succeeded(userId)` or `Failed`.
- `currentYear` is a parameter of the year functions.

## Model

| member | source | states |
|---|---|---|
| `JsStrings.TrimStartSpec` | src/Components/SignupForm.js:56 | trimming the front keeps a suffix of the input that does not start with white space, and drops only white space |
| `JsStrings.TrimEndSpec` | src/Components/SignupForm.js:56 | trimming the end keeps a prefix of the input that does not end with white space, and drops only white space |
| `JsStrings.TrimEmptyIff` | src/Components/SignupForm.js:56 | `s.trim()` is empty exactly when every character of `s` is white space |
| `JsStrings.TrimShape` | src/Components/SignupForm.js:56 | the trimmed string is a contiguous piece of the input with no white space at either end |
| `JsStrings.TrimIdempotent` | src/Components/SignupForm.js:56 | trimming a trimmed string changes nothing |
| `JsStrings.Utf16Length` | src/Components/SignupForm.js:68 | `length` counts UTF-16 code units: between the number of code points and twice it, equal to it when no code point is above U+FFFF |
| `JsStrings.EmailPatternExamples` | src/Components/SignupForm.js:64 | the email test accepts `jo@uni.edu` and rejects `not-an-email` and `jo@uni` |
| `JsStrings.EmailPatternNeedsAtThenDot` | src/Components/SignupForm.js:64 | any string that passes the email test has an `@` followed later by a `.` |
| `FormState.FieldsEnumerateKeys` | src/Components/SignupForm.js:7-18 | `Object.keys(user)` lists each of the ten keys exactly once |
| `FormState.Set` | src/Components/SignupForm.js:41-44 | the spread copy has the new value at the named key and every other key unchanged |
| `FormState.InitialUserWellTyped` | src/Components/SignupForm.js:7-18 | the initial record is nine empty strings and `international: false` |
| `FormState.ApplyChange` | src/Components/SignupForm.js:39-45 | only the named field changes; it becomes `checked` for a checkbox and `value` otherwise |
| `FormState.ApplyChangeIdempotent` | src/Components/SignupForm.js:39-45 | applying the same event twice gives the same record as applying it once |
| `FormState.ApplyChangeCommutes` | src/Components/SignupForm.js:41-44 | change events on different keys can be applied in either order |
| `FormState.ApplyChangeKeepsWellTyped` | src/Components/SignupForm.js:39-45 | an event from the form's own inputs keeps nine string fields and a boolean `international` |
| `FormState.ApplyChangesKeepsWellTyped` | src/Components/SignupForm.js:39-45 | any series of such events keeps the record's declared shape |
| `Validator.EmptyFieldErrorsSpec` | src/Components/SignupForm.js:53-60 | the loop over a list of keys reports exactly the blank string-typed keys among them, each with "Field cannot be empty" |
| `Validator.IsBlankStringIff` | src/Components/SignupForm.js:54-56 | a value passes the `typeof` and `trim` tests exactly when it is a string of white space only |
| `Validator.StructuralChecks` | src/Components/SignupForm.js:62-72 | the guarded block adds the email, password-length and password-match messages when their tests fail, keeps a key's earlier entry (or its absence) when that key's test passes, and touches no other key |
| `Validator.Validate` | src/Components/SignupForm.js:48-78 | `validate` returns exactly the string fields whose value is empty or white space only, each mapped to "Field cannot be empty" |
| `Validator.ValidationBlankKeys` | src/Components/SignupForm.js:48-78 | over all ten keys, a key is in the result exactly when it passes the `typeof` and `trim` tests, always with "Field cannot be empty" |
| `Validator.ValidationSpec` | src/Components/SignupForm.js:48-78 | a key is in the result exactly when its value is a blank string, and its message is always "Field cannot be empty" |
| `Validator.ValidationKeys` | src/Components/SignupForm.js:53-54 | only string-typed keys are reported, so never `international` in a record of the declared shape |
| `Validator.StructuralChecksUnreachable` | src/Components/SignupForm.js:49-72 | the result equals the empty-field pass alone, and no email or password message ever appears |
| `Validator.NoBlankFieldPasses` | src/Components/SignupForm.js:48-78 | a record with no blank string field validates to `{}`, whatever its email and passwords |
| `Validator.NotAnEmailPasses` | src/Components/SignupForm.js:62-72 | with `email = "not-an-email"`, a short password and a mismatched confirmation, `validate` returns `{}`, although the guarded checks would report all three |
| `Validator.InitialUserFails` | src/Components/SignupForm.js:7-18 | the initial record is reported on each of its nine string fields and not on `international` |
| `Validator.ValidationAfterTextChange` | src/Components/SignupForm.js:39-60 | a text change sets that key's entry when the new text is blank and removes it otherwise; no other entry moves |
| `Validator.ValidationAfterCheckboxChange` | src/Components/SignupForm.js:39-60 | a checkbox change removes any entry for its key and leaves the others |
| `YearRanges.StartYearsShape` | src/Components/SignupForm.js:26-29 | eleven years, from `currentYear - 10` to `currentYear`, strictly increasing, containing exactly that range |
| `YearRanges.EndYearsShape` | src/Components/SignupForm.js:31-34 | eleven years, from `currentYear` to `currentYear + 10`, strictly increasing, containing exactly that range |
| `YearRanges.StartNotAfterEnd` | src/Components/SignupForm.js:24-34 | every offered start year is at most every offered end year; the lists share only `currentYear` |
| `Submission.UserInfoPathInjective` | src/Components/SignupForm.js:88 | different user ids give different `/user-info/` routes |
| `Submission.SignupForm.constructor` | src/Components/SignupForm.js:7-21 | the form starts with the initial record, no errors, no navigation and nothing posted |
| `Submission.SignupForm.HandleChange` | src/Components/SignupForm.js:39-45 | the held record becomes the updated copy; only the named field differs |
| `Submission.SignupForm.HandleSubmit` | src/Components/SignupForm.js:81-95 | the errors become exactly the fresh validation result (a replacement, not a merge); the record is posted if and only if that result has no keys; navigation to `/user-info/<userId>` happens only after a successful post; a failed post changes nothing further |

## Left out

- Rendering: the JSX markup, the `<select>`/`<option>` lists and the error paragraphs (src/Components/SignupForm.js:97-243) are user interface.
- The HTTP call `axios.post` (src/Components/SignupForm.js:87) is network I/O. Its outcome is a parameter of `HandleSubmit`.
- The router state passed to `navigate` (`state: { user: response.data }`, src/Components/SignupForm.js:89) is router machinery. Only the route is modelled.
- `new Date().getFullYear()` (src/Components/SignupForm.js:24) is a clock read. `currentYear` is a parameter.
- `event.preventDefault()` and the `console.log` / `console.error` calls are side effects with no effect on the form's state.
- React's `useState` scheduling, re-rendering and the asynchronous gap between `setErrors` and the post are framework behaviour. The model runs each handler to completion on plain fields.
- Events whose `name` is not a record key: no input of the form has such a name, so `Event.name` is a `Field`.
- The order of keys in the error object is not modelled; only its key set and messages are, which is all `Object.keys(...).length === 0` and the display use.
- The component has no `username` field, no interest set, no option lists fetched from a server and no merging of server-supplied errors; a failed post is only logged, and the model has none of these either.
- Strings are sequences of Unicode scalar values, so a JavaScript string holding a lone surrogate cannot be represented; `Trim`, `AllWhitespace`, `Utf16Length` and string equality are modelled for well-formed text only.
- src/App.test.js is a render test of a mocked component; it has no logic to model.
