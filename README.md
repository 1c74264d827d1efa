# HR pages, shared validators and anti-cheat hook of the Skill-Proof frontend

This project models five files of the Skill-Proof-Generator frontend and proves properties about them.

- `lib/validators.ts`: the shared zod schemas (login, register, personal info, job position).
- The three HR pages: login, registration and job creation. For each page the model covers its own schema and its `onSubmit` flow, written as a class with the page's React state as fields. That state is `isLoading`, `error`, the resolver's field issues, the requests issued and the router navigations.
- `lib/antiCheat.ts`: the `useAntiCheat` effect. It classifies browser events into violations and registers and unregisters its three listeners on `window` and `document`.

Shared foundations:

- `JsString` models the JavaScript built-ins the pages rely on, following ECMAScript 2022:
  - `.length` counts UTF-16 code units.
  - `String.prototype.trim` strips WhiteSpace (section 12.2) and LineTerminator (section 12.3).
  - `String.prototype.split` with a one-character separator (section 22.1.3.22).
- `Schema` interprets a zod object schema given as data. It models how zod reports issues per field, what the schema accepts, and what `safeParse` returns: the declared keys only, since unknown keys are stripped.
- `Submission` holds what the pages' `catch` blocks share: `message || fallback`.

Each `onSubmit` is `async`, so a page submission is split into two steps:

- `Submit` runs the resolver, then `onSubmit` up to its `await`.
- `Settle` is the awaited call resuming: it returns or throws, then `finally` runs.

Each submit button is `disabled={isLoading}`. The model treats a `Submit` that arrives while `isLoading` is set as blocked by that button and lets it change nothing. `Submit` runs the resolver and sets `isLoading` in one step; the gap between them in the page is listed under "## Left out".

The hook reports a single `COPY_PASTE` kind for both Ctrl/Cmd+C and Ctrl/Cmd+V (lib/antiCheat.ts:31-35). It has no idle timeout.

Two differences between files are proved as lemmas:

- The registration page requires an 8-character password, while `registerSchema` requires 6 (`HrRegister.SevenCharacterPasswordGap`).
- The job page admits the canonical level spellings, which `jobPositionSchema` rejects (`JobCreate.PageAdmitsMoreLevelsThanLibrary`).

## Model

| member | source | states |
|---|---|---|
| JsString.Utf16Length | lib/validators.ts:5 | the length `min(n)` compares is between the character count and twice it, and is 0 exactly for the empty string |
| JsString.BmpLength | lib/validators.ts:5 | for text without astral characters the UTF-16 length is the character count |
| JsString.FirstKept | app/hr/job/create/page.tsx:65 | the index where the leading cut of `trim` falls: everything before it is trimmable and the code point at it is not |
| JsString.LastKept | app/hr/job/create/page.tsx:65 | the index where the trailing cut of `trim` falls: everything after it is trimmable and the code point before it is not |
| JsString.Trim | app/hr/job/create/page.tsx:65 | the result is a contiguous slice of the input; only trimmable characters lie outside it; it neither starts nor ends with one |
| JsString.TrimUnique | app/hr/job/create/page.tsx:65 | any slice with trimmable characters outside and non-trimmable ends is exactly `trim`'s result |
| JsString.TrimFixesTrimmed | app/hr/job/create/page.tsx:65 | trimming a string with no trimmable ends changes nothing |
| JsString.TrimIdempotent | app/hr/job/create/page.tsx:65 | trimming twice equals trimming once |
| JsString.TrimKeepsAbsent | app/hr/job/create/page.tsx:65 | a character absent from the input is absent from its trim |
| JsString.Split | app/hr/job/create/page.tsx:65 | `split` always yields at least one part |
| JsString.SplitCount | app/hr/job/create/page.tsx:65 | the number of parts is one more than the number of separators |
| JsString.SplitSegmentsFree | app/hr/job/create/page.tsx:65 | no part contains the separator |
| JsString.Join | app/hr/job/create/page.tsx:65 | the join (the inverse of `split`) starts with the first part |
| JsString.JoinSplit | app/hr/job/create/page.tsx:65 | joining the parts with the separator gives back the input |
| JsString.SplitPrefix | app/hr/job/create/page.tsx:65 | splitting a separator-free prefix followed by the separator adds that prefix as the first part |
| JsString.SplitJoin | app/hr/job/create/page.tsx:65 | splitting the join of separator-free parts gives back the parts |
| Schema.FieldIssue | lib/validators.ts:3-22 | a field yields an issue exactly when it fails its check, and the issue's path is the field name |
| Schema.Issues | lib/validators.ts:3-22 | a form yields at most one issue per field of the schema |
| Schema.IssuesMembers | lib/validators.ts:3-22 | the issues are exactly the individual fields' issues: each failing field's issue appears and nothing else does |
| Schema.IssuePathsDistinct | lib/validators.ts:3-22 | with distinct field names, no two issues share a path |
| Schema.IssuePaths | lib/validators.ts:3-22 | with distinct field names, a failing field's name is the path of exactly one issue, that field's own; a passing field's name is the path of none |
| Schema.NoIssuesIff | lib/validators.ts:3-22 | the issue list is empty exactly when every field passes its check |
| Schema.Accepts | lib/validators.ts:3-22 | a schema accepts a form exactly when every one of its fields passes its check |
| Schema.IssuesIgnoreEmail | lib/validators.ts:3-22 | in a schema without an e-mail field, the choice of `isEmail` changes neither the issues nor the verdict |
| Schema.AnyFieldFailureRejects | lib/validators.ts:3-22 | one failing field rejects the whole form |
| Schema.Parse | lib/validators.ts:3-22 | parsing succeeds exactly when the schema accepts; a failure carries at least one issue; a success holds exactly the declared keys, each with the form's value |
| Schema.FieldDecides | lib/validators.ts:3-22 | with distinct field names and the other fields passing, the verdict is that one field's verdict |
| Schema.MinimumIsExact | lib/validators.ts:5 | a `min(n)` field rejects a value of n−1 code units and accepts one of n |
| Validators.LoginSchemaRule | lib/validators.ts:3-6 | `loginSchema` accepts exactly a valid e-mail with a password of at least 6 code units |
| Validators.RegisterSchemaRule | lib/validators.ts:7-11 | `registerSchema` accepts exactly a name of at least 2, a valid e-mail and a password of at least 6; it has no company field |
| Validators.RegisterIgnoresCompany | lib/validators.ts:7-11 | a company value does not change `registerSchema`'s verdict and is stripped from the parsed data |
| Validators.PersonalInfoSchemaRule | lib/validators.ts:12-16 | `personalInfoSchema` accepts exactly a name of at least 2, a valid e-mail and a phone of at least 6 |
| Validators.JobPositionSchemaRule | lib/validators.ts:17-22 | `jobPositionSchema` accepts exactly title ≥ 2, skills ≥ 2, level in junior/mid/senior and description ≥ 10 |
| Validators.JobPositionRejectsCanonicalLevels | lib/validators.ts:20 | the levels Beginner, Intermediate and Experienced are rejected by `jobPositionSchema` |
| Validators.SchemasHaveDistinctNames | lib/validators.ts:3-22 | no shared schema repeats a key |
| Validators.LoginPasswordBoundary | lib/validators.ts:5 | with a valid e-mail, a 5-unit password is rejected and a 6-unit one accepted |
| AntiCheat.OnVisibilityChange | lib/antiCheat.ts:21-25 | a visibility change reports exactly when the document is hidden, and then reports `TAB_SWITCH` |
| AntiCheat.OnBlur | lib/antiCheat.ts:27-29 | a blur always reports `WINDOW_BLUR` |
| AntiCheat.OnKeyDown | lib/antiCheat.ts:31-35 | a key press reports exactly when Ctrl or Meta is held and the key is "c" or "v", and then reports `COPY_PASTE` |
| AntiCheat.Classify | lib/antiCheat.ts:21-35 | each handler reports only the kind of violation it is written for |
| AntiCheat.ClassifierSpec | lib/antiCheat.ts:21-35 | a visibility change is a tab switch exactly when the document is hidden; a blur is always a window blur; a key press is copy/paste exactly when Ctrl or Meta is held and the key is "c" or "v" |
| AntiCheat.UpperCaseKeysIgnored | lib/antiCheat.ts:32 | Ctrl+"C" and Ctrl+"V" report nothing |
| AntiCheat.ViolationNamesDistinct | lib/antiCheat.ts:23-33 | the three reported names are pairwise different |
| AntiCheat.Invoke | lib/antiCheat.ts:21-35 | a handler calls `onViolation` at most once, never when it is undefined, and with its classifier's verdict |
| AntiCheat.Remove | lib/antiCheat.ts:41-45 | removal never lengthens a listener list |
| AntiCheat.RemoveSpec | lib/antiCheat.ts:41-45 | removal leaves no matching listener, keeps every other listener, keeps only listeners that were there, and is the identity when the listener is absent |
| AntiCheat.RemoveMiddle | lib/antiCheat.ts:41-45 | on a duplicate-free list, removing a listener cuts out exactly that entry and keeps the others in order |
| AntiCheat.RemoveAppended | lib/antiCheat.ts:41-45 | removing a listener appended to a list that lacked it gives back the list |
| AntiCheat.Dispatch | lib/antiCheat.ts:37-39 | an event causes at most one call per registered listener |
| AntiCheat.DispatchAppend | lib/antiCheat.ts:37-39 | dispatching to appended listeners reports the first list's calls, then the second's |
| AntiCheat.EventTarget.AddEventListener | lib/antiCheat.ts:37-39 | a listener is appended unless the same type and callback are already registered; the list stays duplicate-free |
| AntiCheat.EventTarget.RemoveEventListener | lib/antiCheat.ts:41-45 | the new list is `Remove` of the old one, so by `RemoveSpec` and `RemoveMiddle` exactly the matching listener is dropped and the rest keep their order; the list stays duplicate-free |
| AntiCheat.RemoveKeepsNoDuplicates | lib/antiCheat.ts:41-45 | removal preserves a duplicate-free list |
| AntiCheat.Setup | lib/antiCheat.ts:20-39 | the effect creates three fresh handlers, appends blur and keydown to `window` and visibilitychange to `document` |
| AntiCheat.Teardown | lib/antiCheat.ts:41-45 | the cleanup applies `Remove` for exactly its three listeners, blur then keydown on `window` and visibilitychange on `document`, and both lists stay duplicate-free |
| AntiCheat.TeardownRestores | lib/antiCheat.ts:37-45 | cleanup after setup restores both listener lists exactly |
| AntiCheat.OneEventOneReport | lib/antiCheat.ts:21-39 | one event reaches exactly one of the hook's handlers and causes at most one report, none without `onViolation` |
| AntiCheat.HookAddsAtMostOneReport | lib/antiCheat.ts:37-39 | whatever else is registered, mounting the hook adds at most one report per event |
| AntiCheat.HandlerFor | lib/antiCheat.ts:37-39 | each event type has the handler registered for it |
| AntiCheat.MountThenUnmount | lib/antiCheat.ts:20-46 | mounting and unmounting the effect leaves `window`'s and `document`'s listener lists as they were |
| Submission.OrElse | app/hr/login/page.tsx:43 | `s || fallback` is `s` when it is a non-empty string and the fallback otherwise |
| Submission.OrElseNonEmpty | app/hr/login/page.tsx:43 | with a non-empty fallback the shown message is never empty |
| HrLogin.LoginPageSchemaRule | app/hr/login/page.tsx:11-14 | the page's schema accepts exactly a valid e-mail with a password of at least 6, the same verdict as `loginSchema` |
| HrLogin.LoginPagePasswordBoundary | app/hr/login/page.tsx:13 | a 5-unit password is rejected and a 6-unit one accepted |
| HrLogin.LoginPage.constructor | app/hr/login/page.tsx:18-29 | the page starts idle with no error, no issues, no calls and no navigation |
| HrLogin.LoginPage.Submit | app/hr/login/page.tsx:31-37 | a pending call makes submit change nothing; an invalid form records its issues only; a valid one clears the error, sets loading and issues one `signIn` with the parsed e-mail and password |
| HrLogin.LoginPage.Settle | app/hr/login/page.tsx:37-46 | on return the page navigates to `/hr/dashboard`; on a throw it shows `err.message` or the fixed message, never empty, and does not navigate; loading ends either way |
| HrRegister.RegisterPageSchemaRule | app/hr/register/page.tsx:11-16 | the page accepts exactly name ≥ 2, a valid e-mail, password ≥ 8 and company ≥ 2 |
| HrRegister.PageStricterThanLibrary | app/hr/register/page.tsx:11-16 | every form the page accepts is accepted by `registerSchema` |
| HrRegister.SevenCharacterPasswordGap | app/hr/register/page.tsx:14 | a 7-unit password passes `registerSchema` but is rejected by the page |
| HrRegister.RegisterPage.constructor | app/hr/register/page.tsx:20-31 | the page starts idle with no error, no issues, no calls and no navigation |
| HrRegister.RegisterPage.Submit | app/hr/register/page.tsx:33-39 | a pending call makes submit change nothing; an invalid form records its issues only; a valid one clears the error, sets loading and issues one `registerUser` with all four fields |
| HrRegister.RegisterPage.Settle | app/hr/register/page.tsx:39-48 | on return the page navigates to `/hr/login?registered=true`; on a throw it shows `err.message` or the fixed message; loading ends either way |
| JobCreate.LevelMapSpec | app/hr/job/create/page.tsx:51-61 | `levelMap` sends junior, mid and senior to Beginner, Intermediate and Experienced, each canonical level to itself, and is defined on exactly the six admitted spellings |
| JobCreate.LevelMapIdempotent | app/hr/job/create/page.tsx:51-61 | mapping the name of a mapped level gives the same level |
| JobCreate.JobSchemaRule | app/hr/job/create/page.tsx:13-23 | the page accepts exactly title ≥ 2, skills ≥ 2, one of the six levels and description ≥ 10 |
| JobCreate.EmptyLevelRejected | app/hr/job/create/page.tsx:130 | the placeholder option "" is rejected |
| JobCreate.AcceptedLevelIsMapped | app/hr/job/create/page.tsx:16-21 | every accepted level has a `levelMap` entry, so `experienceLevel` is always a canonical level |
| JobCreate.PageAdmitsMoreLevelsThanLibrary | app/hr/job/create/page.tsx:16-21 | whatever `jobPositionSchema` accepts the page accepts; the canonical spellings only the page accepts |
| JobCreate.NormaliseSkills | app/hr/job/create/page.tsx:65 | the skills list has one entry more than the input has commas, and no entry starts or ends with white space |
| JobCreate.SkillsNormalisation | app/hr/job/create/page.tsx:65 | one entry per comma-separated segment, empty ones included, in order, each its segment trimmed; the segments joined with "," are the input |
| JobCreate.SkillEntriesTrimmed | app/hr/job/create/page.tsx:65 | every skill entry is comma-free and already trimmed |
| JobCreate.EmptySegmentKept | app/hr/job/create/page.tsx:65 | two adjacent commas give an empty skill between the trimmed neighbours |
| JobCreate.JobSchemaIgnoresEmail | app/hr/job/create/page.tsx:13-23 | the job schema has no e-mail field, so the e-mail predicate changes neither its issues nor its verdict |
| JobCreate.ParsedPayload | app/hr/job/create/page.tsx:63-68 | the validated data `onSubmit` receives builds the same request as the raw form |
| JobCreate.BuildPayload | app/hr/job/create/page.tsx:63-68 | the request carries the title and description as entered, the normalised skills and the mapped level |
| JobCreate.CreateJobPage.constructor | app/hr/job/create/page.tsx:27-38 | the page starts idle with no error, no issues, no requests and no navigation |
| JobCreate.CreateJobPage.Submit | app/hr/job/create/page.tsx:40-68 | a pending request makes submit change nothing; an invalid form records its issues only; without a token the page shows "Please login first", goes to `/hr/login`, ends loading and issues no request; otherwise it issues one request built from the form |
| JobCreate.CreateJobPage.Settle | app/hr/job/create/page.tsx:63-82 | status 201 navigates to the jobs tab and any other status does nothing; a failure shows the response's `error`, else `err.message`, else the fixed message; loading ends either way |

## Left out

- `reportEvent` and everything in `lib/api.ts`: network calls. `createJobPosition`'s result is the `CreateOutcome` parameter of `Settle`.
- `lib/auth.ts` (`signIn`, `registerUser`, `getAuthToken`): storage and network. The token is a parameter of `Submit`, and the awaited calls' results are the `CallOutcome` parameter of `Settle`.
- The proctored test page `app/candidate/[link]/test/page.tsx` and its session controller are not part of this model.
- zod's e-mail regular expression: e-mail validity is the parameter `isEmail` of every schema operation.
- The issue messages, such as "Password must be at least 6 characters". Only issue codes and paths are modelled.
- Non-string form values and zod's `invalid_type` issue: the form is a map from names to strings, which is what the HTML inputs deliver.
- Strings with lone UTF-16 surrogates: Dafny characters are Unicode scalar values.
- The `limit` argument of `split`: `onSubmit` never passes one.
- `levelMap` entries inherited from `Object.prototype`: they are unreachable, because only the six admitted levels pass the schema.
- `Settle`: a non-string `err.response.data.error` or `err.message` is not modelled. These values are `Option<string>`, so a truthy non-string value cannot appear.
- A throw from `router.push` inside the `try` blocks is not modelled.
- `console` logging.
- Rendering, styling and links. Router navigation is modelled as a list of pushed routes.
- Event propagation, capture and `once` options: each `EventTarget` is one flat listener list.
- `useEffect` re-running when `onViolation` changes identity: this is modelled as `Teardown` followed by a new `Setup`.
- React's batching of state updates: each page method applies its updates in source order.
- HrLogin.LoginPage.Submit, HrRegister.RegisterPage.Submit, JobCreate.CreateJobPage.Submit: `handleSubmit` awaits the resolver before calling `onSubmit`, and `disabled={isLoading}` only takes effect after the next render. Neither delay is modelled; each `Submit` validates and sets `isLoading` at once, so at most one call is in flight. Two quick submits issuing two calls is not captured.

