# Video-training front end: upload checks, sidebar menu and session store

This project models the three pieces of logic in the front end of the video
training site (a Next.js application) and proves properties of them.

- **The add-video page** (`app/adicionar-video/page.js`) checks the video file
  a user picks. The name must have an extension. The media type must be one
  of seven video types. The size must be at most 500 MiB. Once the name has an
  extension, the page also stores a copy of the file whose name has every
  interior `.` removed. The model keeps the page's state (the form data, the
  file error, the loading/error/success flags and the file input) as a `Form`
  class. `ValidateFile`, `HandleChange` and `HandleSubmit` update its fields in
  the order the handlers call the React setters, and the last write wins. Each
  method is proved against a pure function of the old state (`Validated`,
  `Changed`, `Submitted`), and the lemmas state what the page promises about
  those functions.
- **The sidebar** (`components/Sidebar.js`) builds its menu from the video
  list. It takes the distinct banks in order of first occurrence, keeps those
  with a label, and gives each an entry made of its label and the path
  `/<lower-cased bank, whitespace runs as "-">`. When a user is loaded, two
  admin entries are appended. `SidebarState` holds the component's state, with
  methods for `loadVideos`, `handleToggle`, `handleLogout` and
  `fetchUserData`.
- **The session controller** (`controllers/auth.js`) keeps the session as the
  `"token"` and `"user"` entries of the browser's local storage. It also makes
  the two identity calls. `LocalStorage` is a class over a
  `map<string, string>`, and `Controller` wraps it. The backend is a function
  parameter from the request sent to the response received. The `user` entry
  goes through `JSON.stringify` and `JSON.parse`. Module `Json` models both on
  strings and proves `JSON.parse(JSON.stringify(v)) == v` for every value.

Behaviour of the code that the model keeps, and that a reader might not
expect:

- The name `a.b.c.mp4` is cleaned to `abc.mp4`: every `.` before the last one
  is removed, as the comment at `app/adicionar-video/page.js:32` says. See
  `CleanNameSplit`.
- Banks without a label are dropped from the menu, as the comment at
  `components/Sidebar.js:40` says.
- The comment at `app/adicionar-video/page.js:44` says the file name is
  updated, and `validateFile` does store the renamed copy. But on acceptance
  `handleChange` then stores the original `files[0]` (lines 71-76), so the
  cleaned name does not survive; see `CleanedNameLost`.
- `handleSubmit` uploads the file held when the handler started. If the upload
  fails, the renamed copy stays in the form.
- The form offers the code `corbee` as "Sistema de Comssionamento Corbee", but
  the menu labels it "Sistema de Comssionamento". The menu knows `unno`, but
  the form does not offer it.

Files: `wrappers.dfy` (`Option`, `Result`), `json.dfy`, `auth.dfy`,
`add_video.dfy`, `sidebar.dfy`.

## Model

| member | source | states |
|---|---|---|
| Json.Truthy | components/Sidebar.js:73 | the falsy values are exactly `null`, `false`, `0` and `""`; every array and object is truthy |
| Json.Stringify | controllers/auth.js:57 | `JSON.stringify` writes text that starts a JSON value; `ParseStringify` reads it back |
| Json.Parse | controllers/auth.js:62 | `JSON.parse` either yields a value or throws a `SyntaxError` |
| Json.SurrogatePairEscape | controllers/auth.js:62 | a character beyond U+FFFF written as a high and a low surrogate escape decodes to that one character |
| Json.ParseSurrogatePair | controllers/auth.js:62 | a string literal holding such a surrogate pair parses to the one-character string |
| Json.LoneSurrogateRefused | controllers/auth.js:62 | a surrogate escape that is not a high one followed by a low one is refused |
| Json.Get | controllers/auth.js:20-23 | reading a property finds a member with that key of an object, and `undefined` when there is none or the value is not an object |
| Json.NatRoundTrip | controllers/auth.js:57-62 | the digits written for a natural number read back as that number, whatever delimiter follows |
| Json.NumberRoundTrip | controllers/auth.js:57-62 | a written integer, negative or not, reads back as itself |
| Json.StringRoundTrip | controllers/auth.js:57-62 | an escaped string and its closing quote read back as the original string, for every string |
| Json.ValueRoundTrip | controllers/auth.js:57-62 | every serialised value parses back to itself and leaves the text after it untouched |
| Json.ArrayRoundTrip | controllers/auth.js:57-62 | the elements of a serialised array parse back to the same list |
| Json.ObjectRoundTrip | controllers/auth.js:57-62 | the members of a serialised object parse back to the same members in the same order |
| Json.MemberRoundTrip | controllers/auth.js:57-62 | one `"key":value` pair parses back to the same key and value |
| Json.ParseStringify | controllers/auth.js:57-62 | `JSON.parse(JSON.stringify(v))` is `v` |
| Json.ParseNullText | controllers/auth.js:62 | the fallback text `"null"` parses to `null` |
| AuthController.LocalStorage.GetItem | controllers/auth.js:61-62 | `getItem` returns the stored value exactly when the key is present, and `null` otherwise |
| AuthController.LocalStorage.SetItem | controllers/auth.js:56-57 | `setItem` maps the key to the value and leaves every other key |
| AuthController.LocalStorage.RemoveItem | controllers/auth.js:67-68 | `removeItem` deletes the key and nothing else |
| AuthController.WithSession | controllers/auth.js:55-58 | the store after `setAuthData`: `token` holds the token, `user` holds text that parses back to the user, and every other entry is kept |
| AuthController.WithoutSession | controllers/auth.js:66-69 | the store after `clearAuthData`: `token` and `user` are gone, and every other entry is kept |
| AuthController.ReadAuthData | controllers/auth.js:60-64 | the token is returned as stored, and reading fails only with a `SyntaxError` on a present, non-empty `user` text |
| AuthController.Field | controllers/auth.js:17 | reading a property throws exactly when the body is `null`, and otherwise yields the property |
| AuthController.JsString | controllers/auth.js:17 | `String(x)` of a string is the string itself, and of `null`, a boolean or a number it is the JSON text |
| AuthController.FailureMessage | controllers/auth.js:17 | a failed call reports `String(error)` when the body's `error` is truthy, the fallback when it is missing or falsy, and the `TypeError` of reading a property of `null` when the body is `null` |
| AuthController.LoginOutcome | controllers/auth.js:4-27 | `login` succeeds exactly when the answer is 2xx and its body is not `null` |
| AuthController.CurrentUserOutcome | controllers/auth.js:29-53 | `getCurrentUser` succeeds only with a stored non-empty token and a 2xx answer to `Token <token>`, and returns that answer's body |
| AuthController.Controller.SetAuthData | controllers/auth.js:55-58 | the store gets `token` and the serialised user, and keeps every other entry |
| AuthController.Controller.GetAuthData | controllers/auth.js:60-64 | returns what `ReadAuthData` gives for the current store, without changing it |
| AuthController.Controller.ClearAuthData | controllers/auth.js:66-69 | the store loses `token` and `user` and keeps every other entry |
| AuthController.Controller.Login | controllers/auth.js:4-27 | the outcome is the one `LoginOutcome` gives for the backend's answer, and the store is not written |
| AuthController.Controller.GetCurrentUser | controllers/auth.js:29-53 | the outcome is the one `CurrentUserOutcome` gives for the store and the backend, and the store is not written |
| AuthController.SetThenGet | controllers/auth.js:55-64 | after `setAuthData(t, u)`, `getAuthData()` returns `t` and a user equal to `u` |
| AuthController.ClearThenGet | controllers/auth.js:60-69 | after `clearAuthData()`, `getAuthData()` returns `{token: null, user: null}`, whatever the store held |
| AuthController.EmptyStoreReads | controllers/auth.js:62 | an empty store reads as no session rather than failing |
| AuthController.MissingUserReadsNull | controllers/auth.js:62 | a store without `user` never makes `getAuthData` throw, and the user reads as `null` |
| AuthController.ClearIdempotent | controllers/auth.js:66-69 | clearing twice leaves the same store as clearing once |
| AuthController.SetOverwrites | controllers/auth.js:55-58 | a second `setAuthData` replaces the first session entirely |
| AuthController.SetThenClear | controllers/auth.js:55-69 | logging out after a login leaves the store as clearing it alone would |
| AuthController.OtherKeysUntouched | controllers/auth.js:55-69 | set and clear leave every key other than `token` and `user` present or absent as before, with the same value |
| AuthController.NoTokenNoRequest | controllers/auth.js:31-34 | with an absent or empty token and a `user` entry that parses (or none), `getCurrentUser` fails with "Usuário não autenticado" whatever the backend would answer |
| AuthController.MissingToken | controllers/auth.js:32 | a token counts as missing exactly when it is absent or JavaScript-falsy, that is, the empty string |
| AuthController.CurrentUserRequest | controllers/auth.js:36-41 | the current-user request is a GET of `/usuarios/current-user/` with no body, authorised by `Token ` followed by exactly the given token |
| AuthController.CurrentUserSendsToken | controllers/auth.js:36-41 | the only request `getCurrentUser` sends carries `Authorization: Token <stored token>` |
| AuthController.ClearThenCurrentUser | controllers/auth.js:29-34 | after logout, the current user can no longer be fetched |
| AuthController.SetThenCurrentUser | controllers/auth.js:29-49 | after a session with a non-empty token is stored, the backend's answer to `Token t` decides the outcome: its body on success, its error text or the fallback otherwise |
| AuthController.LoginRequest | controllers/auth.js:6-12 | login sends a POST to `/usuarios/login/` without an `Authorization` header, and its body parses back to `{cpf, password}` |
| AuthController.LoginBodyCarriesCredentials | controllers/auth.js:6-11 | the posted object holds the given `cpf` and `password` under those keys, and two logins send the same request exactly when they send the same credentials |
| AuthController.LoginRejected | controllers/auth.js:14-18 | a rejected login fails with `String(error)` for a truthy `error`, with "Erro ao fazer login" for a missing or falsy one, and with a `TypeError` for a `null` body |
| AuthController.LoginAccepted | controllers/auth.js:14-23 | an accepted login returns the answer's `token` and `user` as they are, `undefined` where missing, and throws a `TypeError` for a `null` body |
| AddVideo.LastIndexOf | app/adicionar-video/page.js:34 | the result is -1 exactly when `.` is absent, and otherwise the position of the last `.` |
| AddVideo.RemoveDots | app/adicionar-video/page.js:42 | no `.` is left |
| AddVideo.RemoveDotsChar | app/adicionar-video/page.js:42 | a single `.` is removed and any other single character is kept |
| AddVideo.RemoveDotsAppend | app/adicionar-video/page.js:42 | removing the dots works piece by piece, so the characters kept stay in their order |
| AddVideo.RemoveDotsKeeps | app/adicionar-video/page.js:42 | every other character is kept, as many times as it occurs |
| AddVideo.Extension | app/adicionar-video/page.js:41 | the extension starts with `.` and holds no other `.` |
| AddVideo.ExtensionSuffix | app/adicionar-video/page.js:41 | the extension is the tail of the name |
| AddVideo.CleanName | app/adicionar-video/page.js:40-42 | the cleaned name is no longer than the original, ends with the extension, and has no `.` before it |
| AddVideo.CleanNameSplit | app/adicionar-video/page.js:40-42 | a name split at its last `.` becomes its front without dots followed by the unchanged extension (so `a.b.c.mp4` gives `abc.mp4`) |
| AddVideo.CleanNameShape | app/adicionar-video/page.js:40-42 | the cleaned name ends with the original extension, has no `.` before it, and has exactly one `.` |
| AddVideo.CleanNameExtension | app/adicionar-video/page.js:40-42 | the extension of the cleaned name is the extension of the original name |
| AddVideo.CleanNameFixedIff | app/adicionar-video/page.js:40-42 | cleaning changes nothing exactly when the name has a single `.` |
| AddVideo.CleanNameIdempotent | app/adicionar-video/page.js:40-42 | cleaning a cleaned name changes nothing |
| AddVideo.Problem | app/adicionar-video/page.js:34-62 | the extension message is shown exactly when the name has no `.`, and any message is one of the three |
| AddVideo.Renamed | app/adicionar-video/page.js:45 | the renamed file keeps the media type and size, and its name has the same extension and a single `.` |
| AddVideo.AcceptedIff | app/adicionar-video/page.js:29-66 | a file passes exactly when its name has a `.`, its type is one of the seven, and its size is at most 524288000 bytes |
| AddVideo.NoExtensionFirst | app/adicionar-video/page.js:34-38 | a name without `.` gets the extension message, whatever its type and size |
| AddVideo.FormatBeforeSize | app/adicionar-video/page.js:52-55 | with a `.` in the name, a type outside the list gets the format message, whatever the size |
| AddVideo.SizeBoundary | app/adicionar-video/page.js:58-62 | when the name has a `.` and the type is allowed, exactly 524288000 bytes passes and 524288001 gets the size message |
| AddVideo.SizeRule | app/adicionar-video/page.js:58-62 | every size above 524288000 bytes gets the size message when the name has a `.` and the type is allowed |
| AddVideo.RenamedSameVerdict | app/adicionar-video/page.js:45-62 | the renamed file gets the same verdict as the file it copies |
| AddVideo.Validated | app/adicionar-video/page.js:29-66 | `validateFile` changes only the stored file and the message, and answers true only for a present file, with no message |
| AddVideo.Changed | app/adicionar-video/page.js:68-91 | an input change never touches loading, error or success; a file is held after a file change only if it is the chosen one and passes |
| AddVideo.Submitted | app/adicionar-video/page.js:93-127 | submit always ends not loading; success clears title, bank and file with no error; an error keeps title and bank and means no success |
| AddVideo.ValidatedVerdict | app/adicionar-video/page.js:29-66 | `validateFile` answers true exactly for a present file that breaks no rule, and the message shown is the first rule broken, or none |
| AddVideo.MissingFileRefusedSilently | app/adicionar-video/page.js:30 | a missing file is refused with no message and no change of state |
| AddVideo.ValidatedStoresRenamed | app/adicionar-video/page.js:45-49 | once the name has an extension, the renamed copy is stored whatever the verdict, and only the file and the message change |
| AddVideo.Form.constructor | app/adicionar-video/page.js:19-27 | the form starts empty, not loading, without messages |
| AddVideo.Form.ValidateFile | app/adicionar-video/page.js:29-66 | the new state and the answer are those of `Validated` on the old state |
| AddVideo.Form.HandleChange | app/adicionar-video/page.js:68-91 | the new state is `Changed` of the old state |
| AddVideo.Form.HandleSubmit | app/adicionar-video/page.js:93-127 | the new state is `Submitted` of the old state, with the upload given the title, bank and file held when the handler started |
| AddVideo.ChosenFileKept | app/adicionar-video/page.js:71-76 | a chosen file that passes is stored as chosen, stays in the input, and clears the message |
| AddVideo.CleanedNameLost | app/adicionar-video/page.js:46-76 | a passing file whose name has interior dots is stored under its original name, not the cleaned one |
| AddVideo.ChosenFileRefused | app/adicionar-video/page.js:77-84 | a refused file empties the stored file and the input, shows the rule broken, and disables the submit button |
| AddVideo.FileDialogCancelled | app/adicionar-video/page.js:71-89 | an empty file list (a cancelled dialog) clears the stored file and the input and keeps everything else, an earlier message included |
| AddVideo.SubmitEnabled | app/adicionar-video/page.js:221 | loading or any of the three messages disables the submit button; with nothing loading and no message it is enabled |
| AddVideo.ValidatedEnables | app/adicionar-video/page.js:29-66 | while nothing is loading, validating a chosen file enables the submit button (`disabled` at line 221) exactly when the file breaks no rule |
| AddVideo.TextChangesStoreValue | app/adicionar-video/page.js:85-90 | the title and bank inputs store their value as typed and change nothing else |
| AddVideo.SubmitWithoutValidFile | app/adicionar-video/page.js:99-102 | without a passing file, submit returns before the upload: the outcome does not depend on the upload, and loading ends false |
| AddVideo.SubmitSendsHeldPayload | app/adicionar-video/page.js:105-110 | the upload receives the title, bank and file the form held at submit |
| AddVideo.SubmitSuccessResets | app/adicionar-video/page.js:110-116 | a successful upload empties title, bank and file and reports success |
| AddVideo.SubmitFailureReports | app/adicionar-video/page.js:122-126 | a failed upload shows its message, keeps title and bank, and keeps the renamed file |
| Sidebar.Banks | components/Sidebar.js:37 | one bank per video, in the same order |
| Sidebar.Dedup | components/Sidebar.js:37 | no bank twice, the same set of banks, and never longer than the input |
| Sidebar.DedupOrder | components/Sidebar.js:37 | the distinct banks come in the order of their first occurrence |
| Sidebar.Labelled | components/Sidebar.js:40 | a bank is kept exactly when the label table has it |
| Sidebar.LabelledOrder | components/Sidebar.js:37-40 | filtering the distinct banks keeps them distinct and in order of first occurrence in the full list |
| Sidebar.MenuBanks | components/Sidebar.js:37-40 | the menu has no more banks than there are videos, and each of them has a label |
| Sidebar.MenuBanksShape | components/Sidebar.js:37-40 | the menu's banks are distinct, are exactly the labelled banks of the list, and keep their order of first occurrence |
| Sidebar.Entry | components/Sidebar.js:41-44 | a labelled bank's entry carries its label and the path `/` followed by the bank code |
| Sidebar.Entries | components/Sidebar.js:41-44 | one entry per bank, in the same order, each made of the bank's label and path |
| Sidebar.MenuItems | components/Sidebar.js:37-44 | one entry per menu bank, in order, each with that bank's label and path `/<code>` |
| Sidebar.MenuEntriesFromLabelledBanks | components/Sidebar.js:39-44 | an entry is in the menu exactly when it is the entry of a labelled bank of some video |
| Sidebar.MenuCounts | components/Sidebar.js:37-44 | there are no more entries than distinct banks, and no more distinct banks than videos |
| Sidebar.LowerCase | components/Sidebar.js:43 | lower-casing keeps the length and lower-cases each character |
| Sidebar.DropSpaces | components/Sidebar.js:43 | the result does not start with whitespace |
| Sidebar.Hyphenate | components/Sidebar.js:43 | replacing whitespace runs by `-` never lengthens the text |
| Sidebar.PathOf | components/Sidebar.js:43 | a path starts with `/` and is at most one character longer than the bank code |
| Sidebar.HyphenateNoSpaces | components/Sidebar.js:43 | no whitespace is left in a path |
| Sidebar.HyphenateRun | components/Sidebar.js:43 | each maximal whitespace run becomes a single `-` |
| Sidebar.HyphenateNoop | components/Sidebar.js:43 | text without whitespace is not changed |
| Sidebar.LowerCaseNoop | components/Sidebar.js:43 | text without capitals is not changed |
| Sidebar.LabelCodesPlain | components/Sidebar.js:17-32 | every code of the label table is made of lower-case letters, digits and `_` |
| Sidebar.LabelPath | components/Sidebar.js:43 | the path of a labelled bank is `/` followed by the bank code |
| Sidebar.MenuNoRepeats | components/Sidebar.js:37-44 | the menu repeats no entry |
| Sidebar.ExtendedMenu | components/Sidebar.js:73-79 | the menu is kept as the prefix, and two entries are added exactly when the user is truthy |
| Sidebar.ExtendedMenuShape | components/Sidebar.js:73-79 | with a user, the menu is followed by exactly "Adicionar Vídeo" and "Gerenciar Videos"; without one, it is shown unchanged |
| Sidebar.AdminPathsUnlabelled | components/Sidebar.js:73-79 | the admin paths are not paths of a labelled bank |
| Sidebar.BankPathsNotAdminPaths | components/Sidebar.js:73-79 | no bank entry has an admin path |
| Sidebar.ExtendedMenuNoRepeats | components/Sidebar.js:73-79 | the rendered menu repeats no entry, with or without a user |
| Sidebar.OfferedBanksLabelled | app/adicionar-video/page.js:182-194 | every bank the upload form offers has a menu label |
| Sidebar.SidebarState.constructor | components/Sidebar.js:10-14 | the menu starts closed and empty, with no user and no error |
| Sidebar.SidebarState.LoadVideos | components/Sidebar.js:34-47 | a fetched list replaces the menu with its derived entries, a failed fetch leaves it, and nothing else changes |
| Sidebar.SidebarState.Rendered | components/Sidebar.js:73-79 | the open menu shows the stored menu first, followed by "Adicionar Vídeo" and "Gerenciar Videos" exactly when the user is truthy |
| Sidebar.SidebarState.HandleToggle | components/Sidebar.js:61-65 | the menu flips open or closed, and the new value is what `onToggle` receives |
| Sidebar.SidebarState.HandleLogout | components/Sidebar.js:67-71 | the session entries are cleared, the user becomes `null`, and the rendered menu falls back to the plain bank menu |
| Sidebar.SidebarState.FetchUserData | components/Sidebar.js:81-96 | with a stored token the user is loaded or the error kept; without one nothing changes; a failing read keeps its error |

## Left out

- Json: numbers are integers only. Fractions, exponents and their text forms are not modelled.
- Json: the model's integers are unbounded. JavaScript numbers are doubles: integers above 2^53 are inexact, and from 1e21 on they are written in exponent form.
- Json.Parse: a `\u` escape of a lone surrogate (`\ud800` not followed by a low-surrogate escape, or a low surrogate on its own) is refused. Characters here cannot hold one, although JavaScript strings can. A high and a low surrogate escape in a row decode to one character.
- Json.Get: `JSON.parse` keeps the last of duplicated keys. The model keeps every member in order, and `Get` returns the last one.
- Json: an object keeps its members in the order of the text. A JavaScript object lists integer-like keys first, in ascending order, so `setAuthData` with a user `{"b":1,"1":2}` stores `{"1":2,"b":1}` in the browser. The round trip holds either way.
- AuthController: the base URL `API_URL` and the `Content-Type` header are not modelled. A request names only its method, path, `Authorization` header and body.
- AuthController: `response.json()` is taken to succeed. A response body that is not JSON, and a `fetch` that rejects, are not modelled.
- AuthController: the texts of `SyntaxError` and of the `TypeError` for reading a property of `null` depend on the JavaScript engine. The constants standing for them are placeholders, and so is every comparison with them.
- AuthController.Controller.SetAuthData: `localStorage.setItem` can throw (storage quota, security settings). If the second write throws, the store keeps the new token with the old user. The model takes both writes to succeed.
- AuthController: other tabs of the same origin share the store and can change it between two reads. The model has one writer.
- AuthController: tokens are strings. `localStorage` coercion of other values, and `JSON.stringify(undefined)`, are not modelled.
- AddVideo: only the name, type and size of a `File` are modelled. Its contents and `lastModified` are not.
- AddVideo: `FormData` construction is not modelled. The upload is a function of the title, bank and file it receives.
- AddVideo.Form.HandleSubmit: the browser's `required` checks on the title, bank and file inputs (`app/adicionar-video/page.js` lines 163, 178 and 207) and the `disabled` submit button (line 221) can stop `handleSubmit` from running at all. The model takes the handler as called.
- AddVideo.Form.HandleSubmit: the model runs the handler to completion, with no other event during the upload. In the page the inputs stay enabled while `uploadVideo` is awaited (line 110), so a `handleChange` can run meanwhile. On success the reset at lines 112-116 overwrites such a change; on failure it survives, so `Submitted` and `SubmitFailureReports` describe the state only when nothing else ran during the upload.
- AddVideo: the redirect `setTimeout` after a successful upload is not modelled.
- AddVideo: React batching is modelled as ordered assignments, where the last write wins. A handler's reads of `formData` see the value it had when the handler started.
- Sidebar: `toLowerCase` is ASCII only. Unicode case mapping is not modelled.
- Sidebar: `BANK_LABELS[bank]` is modelled as a finite map lookup. Inherited object keys, such as `constructor`, which JavaScript would find truthy, are not modelled.
- Sidebar.SidebarState.LoadVideos: a rejected `getAllVideos` is an unhandled rejection in the code. It is modelled as leaving the state as it was.
- Sidebar: the `resize` listener, `isMobile`, the overlay, the `router.push("/login")` redirect, `console.error` and the rendering are not modelled.
- Sidebar.SidebarState.HandleToggle: the `onToggle` callback is not called. The method returns the value the callback would receive.
- `app/services/videoService.js` is not part of this model. Its calls are parameters: a fetched list or an error, and an upload outcome.
- `app/gerenciar-videos/page.js`, the bank pages, the layout and `MenuItem` are not part of this model. They are view code.
