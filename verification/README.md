# manim-orchestrator-api, modelled in Dafny

The modelled service lets a signed-in user keep a list of animation
projects, each holding a natural-language prompt. The user asks the service
to turn a prompt into Manim Python code through an LLM and hand that code to
an external renderer, which later reports back with a video URL. The model
covers the decisions the service makes:

- **Tables.** The project table and the user table are maps from id to row.
  Each query is a pure function from the table before to its answer and, for
  writes, the table after (`project_store.dfy`, `user_store.dfy`).
- **Project endpoints.** Create, list, get, update and delete. Each takes the
  request, the claims in the request context and the table, and returns the
  JSON envelope and the new table. They carry the 404/403 ownership guard,
  the per-owner name conflicts and the list view's storage-host rewrite
  (`project_handlers.dfy`).
- **Render lifecycle.** The trigger is a small state machine over
  `render_status`. The LLM and the renderer are passed in as functions from
  the request they receive to their answer. The callback reconciles the
  renderer's report into the row (`render_lifecycle.dfy`).
- **Account endpoints.** Registration, login and account deletion. bcrypt's
  hash and compare and JWT signing are function parameters
  (`auth_handlers.dfy`).
- **Bearer-token middleware.** It parses the `Authorization` header on single
  spaces, compares the scheme case-insensitively and stores the claims in the
  context. It also reads the claims back with their type checked
  (`auth_middleware.dfy`).
- **LLM prompt and reply.** The prompt text sent to the LLM, and the
  extraction of the fenced Python block from its reply (`gemini.dfy`).

`text.dfy` models the Go standard-library string functions these decisions
rest on:

- `strings.TrimSpace` with Go's white-space set;
- ASCII `strings.ToLower`;
- `strings.Split` on one character, with its join round trip;
- `Index`, `LastIndex` and `Replace(…, 1)`;
- `%d` formatting, with its parse round trip.

`base.dfy` holds `Option`, `Result` and the least element of a finite set of
ids. Lookups that SQL answers with "some matching row" pick that least id.

Ids are `nat`s and instants are `int`s, both uninterpreted. `Time` is
counted in seconds where a duration matters (the 24-hour token lifetime).

The schema's unique constraints are not part of the source, so the tables
enforce only their primary key. One name per project per owner, one account
per address, lower-case addresses and "every row under its own id" are
proved instead as invariants that every writing endpoint keeps.

## Model

| member | source | states |
|---|---|---|
| ProjectStore.Create | pkg/db/queries/manim_projects.go:17-50 | An insert fails only on a taken id. Otherwise it stores the given columns with the generated id and timestamps, and `"pending"` when the status is empty. The table gains exactly that row and the other rows are unchanged. |
| ProjectStore.FindById | pkg/db/queries/manim_projects.go:55-69 | A lookup by id answers "none", not an error, exactly when the id is absent. Otherwise it answers the row. |
| ProjectStore.FindByNameAndOwner | pkg/db/queries/manim_projects.go:87-101 | The answer is "none" exactly when no row has that exact name and owner. Otherwise it is a stored row with both. |
| ProjectStore.ListByOwner | pkg/db/queries/manim_projects.go:73-83 | The list holds exactly the owner's rows, each once, ordered by `created_at` descending. |
| ProjectStore.Update | pkg/db/queries/manim_projects.go:119-141 | The update succeeds exactly when a row matches both id and owner. It overwrites that row's mutable columns and stamps `updated_at`; id, owner and `created_at` stay. Other rows are unchanged. With no match it reports `ErrNoRows` and changes nothing. |
| ProjectStore.Delete | pkg/db/queries/manim_projects.go:145-161 | The delete removes exactly the row matching both id and owner. Otherwise it reports `ErrNoRows` and the table is unchanged. |
| ProjectStore.CreateThenFind | pkg/db/queries/manim_projects.go:17-50 | An inserted row is found by its id and by its name and owner, and its owner's list grows by one. |
| ProjectStore.DeleteThenFind | pkg/db/queries/manim_projects.go:145-161 | A deleted row is no longer found, and its owner's list shrinks by one. |
| ProjectStore.UpdateIdempotent | pkg/db/queries/manim_projects.go:119-141 | Repeating an update at the same instant changes nothing more. |
| UserStore.Create | pkg/db/queries/users.go:13-46 | An insert stores username, address and hash under the generated id and timestamps, and adds only that row. |
| UserStore.FindByEmail | pkg/db/queries/users.go:49-63 | The address is matched exactly. The answer is "none", without an error, exactly when no account has it. |
| UserStore.FindById | pkg/db/queries/users.go:66-79 | The answer is "none", without an error, exactly when the id is absent. Otherwise it is the account stored under that id, whose own id is the one asked for. |
| UserStore.Update | pkg/db/queries/users.go:83-104 | An absent id returns success and changes nothing. Otherwise only that row's username, address and hash change, and it is stamped. |
| UserStore.Delete | pkg/db/queries/users.go:108-123 | The delete removes exactly that id, and every other account stays. An absent id leaves the table unchanged without an error. |
| UserStore.CreateThenFind | pkg/db/queries/users.go:13-63 | A new account with an unused address is what lookups by that address and by its id find. |
| UserStore.DeleteThenFind | pkg/db/queries/users.go:108-123 | After deletion neither the id nor, when addresses are unique, the address finds the account. |
| UserStore.UpdateIdempotent | pkg/db/queries/users.go:83-104 | Repeating a user update at the same instant changes nothing more. |
| ProjectHandlers.ToResponse | pkg/handlers/manim_projects.go:110-126 | A NULL video URL is shown as `""`, and a set one is shown as stored. Id, owner, name, description, prompt, status and both timestamps pass through unchanged. |
| ProjectHandlers.CreateProjectAsWritten | pkg/handlers/manim_projects.go:131-177 | This is the create handler as written (see ## Findings). A bad body answers 400 and missing claims 500. The answer is 409 exactly when the caller owns a project whose name equals the name as sent, untrimmed. An authenticated, bound request with no such project and an unused id answers 201. Every non-201 answer leaves the table unchanged. A 201 adds exactly one row with trimmed fields, status `"pending"` and no URL. |
| ProjectHandlers.CreateProject | pkg/handlers/manim_projects.go:131-177 | This is the corrected create (see ## Findings), and the rest of the model uses it. Create answers 409 exactly when the caller already owns a project with the trimmed name. An authenticated, bound request with no such project and an unused id answers 201. On 201 the table gains exactly one row, owned by the caller, with trimmed name, description and prompt, status `"pending"` and no URL. Every other answer changes nothing. |
| ProjectHandlers.CreateProjectKeepsInvariants | pkg/handlers/manim_projects.go:146-166 | Create keeps every row under its own id and every owner's project names distinct. |
| ProjectHandlers.CreateVersionsAgreeOnTrimmedNames | pkg/handlers/manim_projects.go:146-161 | The as-written and corrected creates agree on every request whose name is already trimmed. |
| ProjectHandlers.AsWrittenStoresDuplicateName | pkg/handlers/manim_projects.go:146-161 | As written, a request for an owned name behind a leading space is created. The owner then has two projects of the same name. The corrected create answers 409. |
| ProjectHandlers.AsWrittenDuplicateDemo | pkg/handlers/manim_projects.go:146-161 | The concrete case: owner 7 owns "Demo" and requests " Demo". |
| ProjectHandlers.RewriteVideoUrl | pkg/handlers/manim_projects.go:196-206 | A URL that contains the old `https://` storage prefix has its first occurrence replaced by the public prefix. Every other URL, including one naming the old host without that prefix, is unchanged. |
| ProjectHandlers.RewriteOldPrefix | pkg/handlers/manim_projects.go:196-206 | A URL that starts with the old prefix keeps its path under the public prefix. |
| ProjectHandlers.ListEntry | pkg/handlers/manim_projects.go:189-213 | A list entry is the response view of the row, and only its URL can differ. A NULL URL shows as `""`. A URL containing the old storage prefix has its first occurrence replaced by the public prefix. Any other URL shows unchanged. |
| ProjectHandlers.ListProjects | pkg/handlers/manim_projects.go:180-217 | Missing claims answer 500. Otherwise the answer is 200 with one entry per project of the caller, no one else's, newest first. The table is never changed. |
| ProjectHandlers.GetProject | pkg/handlers/manim_projects.go:220-257 | A malformed id answers 400, an absent project 404 and another owner's project 403. Only the owner gets the 200 view, with no URL rewrite. The table is unchanged. |
| ProjectHandlers.Apply | pkg/handlers/manim_projects.go:303-326 | Only the supplied fields change, each trimmed. Everything else about the row stays. |
| ProjectHandlers.UpdateProject | pkg/handlers/manim_projects.go:260-342 | An absent project answers 404 and another owner's project 403. Any non-200 answer leaves the table unchanged. A 200 changes only that row, to the applied fields stamped now, and returns its view. |
| ProjectHandlers.UpdateConflictIff | pkg/handlers/manim_projects.go:303-326 | For the owner, the update answers 409 exactly when the trimmed new name differs from the current one and another project of the owner already has it. Otherwise it succeeds without touching status, URL or owner. |
| ProjectHandlers.UpdateProjectKeepsInvariants | pkg/handlers/manim_projects.go:303-336 | Update keeps every row under its own id and every owner's project names distinct. |
| ProjectHandlers.DeleteProject | pkg/handlers/manim_projects.go:345-377 | A malformed id answers 400. The caller's own project is removed, with the table otherwise unchanged and 204. An absent project and another owner's project both answer 404 and change nothing. |
| ProjectHandlers.CreateThenGet | pkg/handlers/manim_projects.go:131-257 | After a 201 create, getting the new id answers 200 with the same project view the create returned, and changes nothing. |
| ProjectHandlers.DeleteThenGet | pkg/handlers/manim_projects.go:220-377 | After its owner deletes a project, getting it answers 404. |
| ProjectHandlers.DeleteProjectKeepsInvariants | pkg/handlers/manim_projects.go:345-377 | Delete keeps every row under its own id and every owner's project names distinct. |
| RenderLifecycle.CallbackHost | pkg/handlers/manim_projects.go:452-457 | The callback host is never `127.0.0.1` or `0.0.0.0`: exactly those two are replaced by `host.docker.internal`, and every other host, `localhost` and `::1` included, is kept. |
| RenderLifecycle.CallbackUrl | pkg/handlers/manim_projects.go:460 | The callback URL is `http://`, then the callback host, then `:`, then the configured port verbatim, then the render-callback path. |
| RenderLifecycle.RefusalCodeRoundTrip | pkg/handlers/manim_projects.go:504 | The status recorded for a refused render keeps the renderer's status code, which reads back exactly. |
| RenderLifecycle.FailureStatusesDistinct | pkg/handlers/manim_projects.go:430-504 | `generating` and the three fixed failure statuses are pairwise distinct, and no refusal status equals any of them. Two refusal statuses are equal exactly when their codes are equal. |
| RenderLifecycle.RendererStatusFailedInjective | pkg/handlers/manim_projects.go:504 | Two refusal statuses are equal exactly when the renderer codes are equal. |
| RenderLifecycle.FailureTagsAreFailures | pkg/handlers/manim_projects.go:445-504 | Every failure status starts with `failed: `, and `generating` does not. |
| RenderLifecycle.BestEffortWrite | pkg/handlers/manim_projects.go:430-435 | A status write whose error is ignored updates the row when id and owner match, and otherwise leaves the table as it was. |
| RenderLifecycle.Dispatch | pkg/handlers/manim_projects.go:463-516 | A request build error records `failed: renderer_req_error` and answers 500 "Failed to prepare render request". A transport error records `failed: renderer_comm_error` and answers 500 "Failed to connect to Manim renderer". A non-202 answer records `failed: renderer_status_<code>` and answers 500 with the renderer's error text, or the fixed fallback when it sent none. A 202 answers 202 `rendering_initiated` for the project and writes nothing. |
| RenderLifecycle.WriteStatusTwice | pkg/handlers/manim_projects.go:430-504 | Of the two status writes a trigger makes, only the second remains. |
| RenderLifecycle.Render | pkg/handlers/manim_projects.go:429-516 | The trigger first writes `generating`. An LLM failure then writes `failed: code_gen_error` and answers 500 "Failed to generate Manim code". Otherwise the renderer outcome decides, exactly as in Dispatch: a failure is written after `generating`, and a 202 leaves `generating` with the accepted answer. |
| RenderLifecycle.RenderStore | pkg/handlers/manim_projects.go:429-516 | After the trigger the project holds its last written status. Nothing else in the table changes. |
| RenderLifecycle.Trigger | pkg/handlers/manim_projects.go:388-518 | A request that the checks turn away gets the refusal the checks give, with the table unchanged and no status written. Any other request goes to the LLM and the renderer. |
| RenderLifecycle.Admit | pkg/handlers/manim_projects.go:388-427 | The checks admit a request exactly when the id parses, claims are present, the project exists, the caller owns it and its prompt is not blank. Otherwise, in this order, they answer 400 for a bad id, 500 for missing claims, 404 "Manim project not found", 403 for another owner, and 400 for a prompt that is all white space. |
| RenderLifecycle.TriggerRefusalIndependent | pkg/handlers/manim_projects.go:388-427 | A refused trigger never calls the LLM or the renderer. Its answer and table are the same whatever they would have returned, and it writes no status. |
| RenderLifecycle.BlankPromptRefused | pkg/handlers/manim_projects.go:422-427 | The owner's trigger on an all-white-space prompt answers 400, writes nothing and leaves the table unchanged. |
| RenderLifecycle.TriggerKeepsInvariants | pkg/handlers/manim_projects.go:388-518 | A trigger changes only the status and stamp of the caller's project, so the table's invariants hold after it. The final status is `generating` on success and a `failed: ` status otherwise. |
| RenderLifecycle.Reconcile | pkg/handlers/manim_projects.go:554-567 | The reported status is stored verbatim. The URL is set only for status `completed` with a URL other than `""` and `"N/A"`, and cleared in every other case. |
| RenderLifecycle.Callback | pkg/handlers/manim_projects.go:523-581 | A bad body or id answers 400, and an unknown project 404 with nothing changed. Otherwise only that row is rewritten to the reconciled status and URL, and the answer is 200. |
| RenderLifecycle.CallbackIdempotent | pkg/handlers/manim_projects.go:523-581 | Delivering the same callback twice at the same instant leaves the table as one delivery does. |
| RenderLifecycle.CompletedRenderVisible | pkg/handlers/manim_projects.go:554-559 | After a completed callback with a usable URL, the owner's view shows that URL. The list view shows it rewritten. |
| AuthHandlers.Register | pkg/handlers/auth.go:80-121 | The address is lower-cased before the lookup and before storage. The answer is 409 exactly when that address is taken, whatever the username. A bound request for a free address whose password hashes, under an unused id, answers 201. On 201 the table gains one account storing the password's hash, and the response carries no data. |
| AuthHandlers.RegisterKeepsInvariants | pkg/handlers/auth.go:87-117 | Registration keeps ids, unique addresses and lower-case addresses. |
| AuthHandlers.TokenClaims | pkg/services/jwt_service.go:22-42 | A token names the account's id as user id and subject, with its address and name, issuer `manim-orchestrator-api`, and expiry 24 hours after issue. |
| AuthHandlers.Login | pkg/handlers/auth.go:38-78 | The address is lower-cased. An unknown address and a wrong password give the identical 401 "Invalid credentials". Success answers 200 with the token signed over the found account's claims. |
| AuthHandlers.RegisterThenLogin | pkg/handlers/auth.go:38-121 | After registering, logging in with the same password and any letter case of the address succeeds. The token names the new account. |
| AuthHandlers.DeleteAccount | pkg/handlers/auth.go:123-176 | Missing or mistyped claims answer 500. The account is looked up by the token's e-mail claim, not its subject. A miss answers a success envelope with status 404 and changes nothing. A hit deletes that account's id and answers 204. |
| AuthHandlers.DeleteAccountRemovesOnlyHolder | pkg/handlers/auth.go:141-167 | Deletion removes exactly the holder of the token's address, and every other account stays. A later login with that address is refused. |
| AuthMiddleware.GetUserClaims | pkg/middleware/auth_middleware.go:56-66 | The claims are found exactly when the key is present and holds claims. A missing key or a value of another type gives "none". |
| AuthMiddleware.BearerToken | pkg/middleware/auth_middleware.go:19-36 | An empty header, and only that, is "missing". An accepted header is a case variant of `bearer`, one space and a space-free token, and the token is what is returned. A "malformed" header has no such reading for any token. |
| AuthMiddleware.BearerTokenIff | pkg/middleware/auth_middleware.go:28-36 | The header yields token `t` exactly when it is a case-insensitive `bearer`, one space, and a space-free `t`. |
| AuthMiddleware.MalformedHeaderExamples | pkg/middleware/auth_middleware.go:28-34 | `"Bearer"` alone and `"Bearer  x"` with a double space are malformed. |
| AuthMiddleware.UpperCaseSchemeAccepted | pkg/middleware/auth_middleware.go:29 | `"BEARER x"` is accepted with token `x`. |
| AuthMiddleware.EmptyTokenAccepted | pkg/middleware/auth_middleware.go:36-38 | `"Bearer "` passes the empty token on to validation. |
| AuthMiddleware.Authenticate | pkg/middleware/auth_middleware.go:17-53 | Every abort is a 401 failure. The chain continues exactly when the header parses and its token validates, and then the context gains only the claims under `userClaims`. |
| AuthMiddleware.AuthenticatedClaimsReadable | pkg/middleware/auth_middleware.go:47-65 | Claims stored by the middleware are what the typed read returns. |
| Gemini.FullPrompt | pkg/llm/gemini.go:68-83 | The prompt is the fixed template followed by the user's request verbatim and a closing quote. |
| Gemini.FullPromptInjective | pkg/llm/gemini.go:68-83 | Different requests give different prompts. |
| Gemini.FirstPartText | pkg/llm/gemini.go:93-99 | A reply with no candidate, no content or no part yields nothing. Otherwise it yields the first part's text. |
| Gemini.ExtractCode | pkg/llm/gemini.go:104-127 | Text without the opening marker is an error, and so is text with no fence at or after the code start. Otherwise the code is the trimmed text from just after the first opening marker to the last fence. |
| Gemini.GenerateCode | pkg/llm/gemini.go:83-127 | A failed call and a reply without text are distinct errors. A reply with text yields exactly what extracting its first part gives, the code or that extraction's own error. |
| Gemini.ExtractFenced | pkg/llm/gemini.go:104-127 | Trimmed code fenced as a Python block, with backtick-free text around it, is extracted exactly. |
| Gemini.OpeningMarkerOnly | pkg/llm/gemini.go:117-121 | A reply whose only fence is the opening marker has no closing fence. |
| Gemini.EmptyBlockExtracted | pkg/llm/gemini.go:123-127 | An empty block yields empty code, not an error. |
| Text.TrimSpace | pkg/llm/gemini.go:124 | The result is trimmed and is the input with its leading and trailing white space, in Go's sense, removed. |
| Text.TrimSpaceOfPadded | pkg/handlers/manim_projects.go:161-163 | Trimming removes exactly the padding around an already-trimmed string. |
| Text.TrimSpaceEmptyIff | pkg/handlers/manim_projects.go:423 | A prompt trims to `""` exactly when it is all white space. |
| Text.ToLowerEqualIff | pkg/handlers/auth.go:46 | Two addresses lower-case to the same string exactly when they are equal up to ASCII letter case. |
| Text.Split | pkg/middleware/auth_middleware.go:28 | Splitting on a character gives one more part than it has occurrences. No part contains it, and joining restores the input. |
| Text.SplitJoin | pkg/middleware/auth_middleware.go:28 | Splitting the join of separator-free parts gives those parts back. |
| Text.IndexOf | pkg/llm/gemini.go:108 | The result is -1 exactly when the pattern never occurs. Otherwise it is the first occurrence. |
| Text.LastIndexOf | pkg/llm/gemini.go:117 | The result is -1 exactly when the pattern never occurs. Otherwise it is the last occurrence. |
| Text.ReplaceFirst | pkg/handlers/manim_projects.go:198-203 | Only the first occurrence is replaced, and the text around it is kept. |
| Text.IntToStringRoundTrip | pkg/handlers/manim_projects.go:504 | `%d` of an int reads back as that int. |

## Left out

- **Database infrastructure errors.** Connection failures, scan failures and the 500 answers they produce ("Failed to check project existence", "Failed to retrieve …", "Login failed", and others) are left out, because the model has no database to fail. The primary-key collision on insert is modelled.
- **`parent_project_id` and `FindManimProjectsByParentID`.** The queries name a column that the project record does not have, so they are left out.
- **`MergeVideosHandler`.** It is an HTTP proxy plus an upsert, and its URL rewrite depends on `url.Parse` and the environment, so it is left out.
- **Foreign calls.** JSON binding and its `binding:` validator tags, `uuid.Parse`, bcrypt, JWT signing and validation, the Gemini API call and the renderer's HTTP call are not modelled. Each is an input: a `Bound` request, an `Option` id, or a function parameter. The transport timeout is part of the renderer's outcome.
- **Time.** `time.Now` and `http.TimeFormat` are not modelled. Timestamps are the opaque `now` parameter, and one request stamps all its writes with the same instant.
- **Concurrency.** Read-modify-write races between updates and callbacks are not modelled; the model is sequential. So is the trigger's "project vanished between fetch and update" path, apart from its ignored write errors.
- **Schema effects.** Cascade deletion of a deleted account's projects lives in the SQL schema, which is not part of this model. So do the unique constraints, and the callback's `updated_at` database trigger, for which the model stamps `now`.
- **`CreateUser`'s "no rows returned" path.** It returns `nil, nil`, which would make the handler dereference nil. An `INSERT … RETURNING` always returns its row, so that path is left out.
- **Error texts.** Error strings that come from libraries (`err.Error()` of the database) are not modelled, and those envelopes carry no detail.
- **Text.ToLower.** It folds ASCII letters only. Go's `strings.ToLower` also folds other Unicode letters, so the e-mail contracts are weaker than Go's for non-ASCII addresses. The `bearer` comparison is exact either way.
- **Strings as characters.** Strings are sequences of Unicode characters, not UTF-8 bytes, so Go's byte offsets (`Index`, slicing) are modelled as character offsets. The two agree on ASCII text.
- **Routing, CORS, health, `/profile`, logging and configuration loading.** These are out of scope. The callback host and port are the `Config` parameter.
- **ProjectStore.FindByNameAndOwner and UserStore.FindByEmail.** SQL returns some matching row when several match; the model picks the least id, so it is more determined than SQL. Under the kept uniqueness invariants there is at most one match.

## Findings

| source | as written | input that shows it | evidently intended | confidence | as-written member | corrected member |
|---|---|---|---|---|---|---|
| pkg/handlers/manim_projects.go:147 | The create handler checks for a name conflict with the name as sent (`req.Name`), but line 161 stores `strings.TrimSpace(req.Name)`. | Owner 7 already has "Demo" and creates " Demo". The lookup finds nothing, so a second project named "Demo" is stored for owner 7. | Look up the trimmed name, as the update handler does at lines 306-307, so an owner never has two projects of the same name. | not executed | ProjectHandlers.CreateProjectAsWritten, ProjectHandlers.AsWrittenStoresDuplicateName | ProjectHandlers.CreateProject, ProjectHandlers.CreateProjectKeepsInvariants |
