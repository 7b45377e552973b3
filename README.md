# Markdown draft publisher: a Dafny model

This project models the two parts of the markdown draft publisher that hold
real logic.

- **The publish route** (`app/api/publish/route.ts`). `POST` receives an
  ordered batch of drafts, rejects an empty batch and a missing credential,
  looks up the repository, makes sure the `drafts` folder exists (creating
  `drafts/.gitkeep` when listing it answers 404), then walks the drafts in
  order. A draft with a blank title is skipped. Every other draft gets a
  sanitised path `drafts/<safe>.md` and the content `# <title>\n\n<body>`.
  The route probes the path for its revision marker (the "sha"), then writes
  the file: a creation without marker, or an update carrying the marker it
  read. Exactly one result is recorded per draft, and a failure of one draft
  is recorded without stopping the loop.
- **The local draft collection** (`hooks/useDrafts.ts`). `addDraft`,
  `updateDraft`, `deleteDraft` and `clearAllDrafts` are state updaters over
  the array of drafts.

Layout, one module per file:

| file | module | contents |
|---|---|---|
| `text.dfy` | `Text` | `Option`; the white space `trim` removes; blankness; the fallback for missing strings |
| `naming.dfy` | `Naming` | the pure expressions of the route: sanitising, path, content, commit message, `sha` field, result label |
| `store.dfy` | `Store` | the remote file store: one step function per request kind, and the class `RemoteStore` whose methods update its fields as those functions say |
| `publish.dfy` | `Publish` | `ensureFolder`, `getFileSha` and `POST` as methods on a `RemoteStore`, each proved equal to a specification function of the old store state |
| `publish_properties.dfy` | `PublishProperties` | what the route promises, as lemmas about those specification functions |
| `drafts.dfy` | `Drafts` | the four updaters as functions on `seq<Draft>`, with their lemmas |

How the environment is modelled:

- **The remote store** (`Store.StoreState`, `Store.RemoteStore`) holds:
  - a map from path to revision marker;
  - the content last written at each path;
  - a counter of revisions created;
  - the log of every request it received.
- **Store behaviour.** A listing of a folder with no file answers 404. A read
  of an absent path answers 404. A write is accepted when it creates an
  absent path, or when it names the current revision of a present path. A
  write without marker on a present path is refused with 422. A stale marker
  is refused with 409.
- **Transport failures** are an input. An `Env` gives one `Fault` for each
  request made before the loop. For each batch position it gives one `Fault`
  for the probe and one for the write, and a position with no entry is
  healthy.
- **JavaScript values.** A missing `message` is the empty string, so
  `e.message || fallback` is `Text.OrElse`. A missing title is
  `Text.Option.None`.
- **The credential** is a parameter of `Post`.

Where the code is imperative, the Dafny is too:

- The store is a class whose methods have `modifies this`.
- `Publish.Post` is a `for` loop that appends to `results` and uses `continue`
  for the skip and the probe-failure paths. Its invariant ties the store and
  `results` to `PublishLoop` applied to the prefix of the batch done so far.

## Model

| member | source | states |
|---|---|---|
| Naming.Sanitize | app/api/publish/route.ts:120 | the file name has exactly the title's length |
| Naming.SanitizeChars | app/api/publish/route.ts:120 | each character in `[A-Za-z0-9-_]` is kept in place, every other character becomes `_`, and the result has no other character |
| Naming.SanitizeIdempotent | app/api/publish/route.ts:120 | sanitising twice equals sanitising once |
| Naming.SanitizeFixesSafe | app/api/publish/route.ts:120 | a string is unchanged by sanitising exactly when every character is safe |
| Naming.DraftPathParts | app/api/publish/route.ts:120-121 | the path is `drafts/`, then the sanitised title, then `.md`, at fixed positions |
| Naming.SamePathIff | app/api/publish/route.ts:120-121 | two titles share a path exactly when they sanitise to the same name |
| Naming.PathCollision | app/api/publish/route.ts:120-121 | the distinct titles "My Post" and "My_Post" share a path |
| Naming.MyPostPath | app/api/publish/route.ts:120-121 | "My Post" is written to `drafts/My_Post.md` |
| Naming.DraftPathIsNotKeepPath | app/api/publish/route.ts:40 | no draft path is the folder placeholder `drafts/.gitkeep` |
| Naming.DraftPathInFolder | app/api/publish/route.ts:121 | every draft path lies under `drafts/` |
| Naming.DraftPath | app/api/publish/route.ts:121 | defines the path a titled draft is written to: `drafts/`, the sanitised title, `.md` |
| Naming.Content | app/api/publish/route.ts:122-124 | defines the file content before base64 encoding: `# `, the title, a blank line, the body |
| Naming.ContentParts | app/api/publish/route.ts:122-124 | the content is `# `, the title, a blank line and the body, at fixed positions |
| Naming.ContentDeterminesBody | app/api/publish/route.ts:122-124 | for one title, equal contents mean equal bodies |
| Naming.CommitMessage | app/api/publish/route.ts:137-139 | defines the commit message: "Update draft " or "Create draft " followed by the title, chosen by the truthiness of the marker read |
| Naming.MessageAnnouncesMarker | app/api/publish/route.ts:137-139 | the message is "Update draft " plus the title exactly when the marker read is truthy, and "Create draft " plus the title exactly when it is not |
| Naming.ShaField | app/api/publish/route.ts:143 | the `sha` field is the marker that was read or nothing; it is never an empty marker, and it is present whenever a non-empty marker was read |
| Naming.MessageMatchesShaField | app/api/publish/route.ts:137-143 | the message says "Update" exactly when the write carries a marker, and "Create" exactly when it carries none |
| Naming.Label | app/api/publish/route.ts:113 | a result label is never empty |
| Naming.LabelIsTitleOrPlaceholder | app/api/publish/route.ts:113 | the label is the draft's own title or `EMPTY_TITLE`, and `EMPTY_TITLE` exactly when the title is missing, empty, or that very text |
| Naming.TitleBlank | app/api/publish/route.ts:111 | defines the skip test `!draft.title?.trim()`: the title is missing or trims to nothing |
| Naming.FilledTitleIsItsLabel | app/api/publish/route.ts:111-147 | a non-blank title is its own label |
| Text.TrimStart | app/api/publish/route.ts:111 | the result is a suffix, only white space is dropped, and the result starts with a visible character or is empty |
| Text.TrimEnd | app/api/publish/route.ts:111 | the result is a prefix, only white space is dropped, and the result ends with a visible character or is empty |
| Text.Trim | app/api/publish/route.ts:111 | the result is one slice of the input, obtained by removing only leading and trailing white space, no longer than the input, and it neither starts nor ends with white space |
| Text.TrimEmptyIffBlank | app/api/publish/route.ts:111 | trimming leaves nothing exactly when every character is white space |
| Text.VisibleStartNotBlank | hooks/useDrafts.ts:34 | a string that starts with a visible character is not blank |
| Text.OrElse | app/api/publish/route.ts:152 | a non-empty message is kept; an empty or missing one is replaced by the fallback; a non-empty fallback gives a non-empty result |
| Store.FetchRepoStep | app/api/publish/route.ts:95-101 | defines the repository lookup on store states: the request is logged and answered with the injected fault, if any, and otherwise with success |
| Store.ListStep | app/api/publish/route.ts:24-32 | defines the folder listing on store states: the request is logged and answered with the injected fault, if any, otherwise with success when a file lies under the folder and 404 when none does |
| Store.GetStep | app/api/publish/route.ts:58-61 | defines the file read on store states: the request is logged and answered with the injected fault, if any, otherwise with the path's current marker, or 404 when the path is absent |
| Store.ReadsChangeNoFile | app/api/publish/route.ts:24-101 | the lookup, a listing and a read keep every file, every content and the revision counter, and only append their own request to the log |
| Store.ReadReplies | app/api/publish/route.ts:24-101 | an injected fault is passed on unchanged; a listing succeeds exactly when healthy and the folder holds a file; a read succeeds exactly when healthy and the path is present, and then answers its current marker; a healthy request that fails answers 404 |
| Store.PutStep | app/api/publish/route.ts:131-145 | the write succeeds exactly when healthy and accepted; then only the written path gets a new marker and the new content; otherwise nothing but the log changes |
| Store.PutKeepsShasNonEmpty | app/api/publish/route.ts:131-145 | writes never create an empty marker |
| Store.RemoteStore.constructor | app/api/publish/route.ts:92 | the store starts from the given files with an empty log |
| Store.RemoteStore.FetchRepo | app/api/publish/route.ts:95-101 | the new state and the answer are those of `FetchRepoStep` |
| Store.RemoteStore.ListFolder | app/api/publish/route.ts:24-32 | the new state and the answer are those of `ListStep` |
| Store.RemoteStore.GetFile | app/api/publish/route.ts:58-61 | the new state and the answer are those of `GetStep` |
| Store.RemoteStore.PutFile | app/api/publish/route.ts:131-145 | the new state and the answer are those of `PutStep` |
| Publish.TokenMissing | app/api/publish/route.ts:86 | defines the credential test `!token`: the token is missing or empty |
| Publish.EnsureFolderSpec | app/api/publish/route.ts:22-50 | defines `ensureFolder` on store states: list the folder; on 404 write the placeholder, whose failure is the error; any other listing failure is its message or "Error checking folder" |
| Publish.GetFileShaSpec | app/api/publish/route.ts:56-68 | defines `getFileSha` on store states: the marker of the path, none on 404, any other failure thrown with its message |
| Publish.DraftWrite | app/api/publish/route.ts:131-145 | defines the write of a titled draft: its path, the create or update message, its content, and the marker only when it is truthy |
| Publish.PostSpec | app/api/publish/route.ts:75-165 | defines `POST` on store states: the 400 and 500 early exits, the repository lookup, the folder bootstrap, then the loop; anything thrown before the loop is a 500 |
| Publish.EnsureFolder | app/api/publish/route.ts:22-50 | the new store and the outcome are those of `EnsureFolderSpec` |
| Publish.GetFileSha | app/api/publish/route.ts:56-68 | the new store and the outcome are those of `GetFileShaSpec` |
| Publish.Post | app/api/publish/route.ts:75-165 | the new store and the reply are those of `PostSpec`, with the loop invariant tying `results` to `PublishLoop` on the drafts done so far |
| Publish.PublishTitled | app/api/publish/route.ts:126-154 | a titled draft's result carries its title, and it is either the write's receipt or an error |
| Publish.PublishDraftSpec | app/api/publish/route.ts:110-154 | each turn's result is filed under the draft's label |
| Publish.PublishLoop | app/api/publish/route.ts:107-155 | one result per draft |
| PublishProperties.LoopAt | app/api/publish/route.ts:107-155 | result i is what draft i's turn records, from the state the earlier drafts left; the next draft starts from the state after this turn |
| PublishProperties.LoopLabels | app/api/publish/route.ts:107-155 | one result per draft, in input order, each filed under its draft's label |
| PublishProperties.SkipRule | app/api/publish/route.ts:111-117 | a missing or blank title gets the skip note under its label, and the store, log included, does not change |
| PublishProperties.WhiteSpaceTitleKeepsItsText | app/api/publish/route.ts:111-115 | a title of spaces is skipped under its own text, not `EMPTY_TITLE` |
| PublishProperties.CreateWhenAbsent | app/api/publish/route.ts:128-147 | for an absent path: probe, then a write without marker, message "Create draft", the composed content; when healthy, the receipt is the result and only that path changes |
| PublishProperties.UpdateWhenPresent | app/api/publish/route.ts:128-147 | for a present path: probe, then a write with the marker read and message "Update draft"; when healthy, the store accepts it, the receipt is the result and only that path changes |
| PublishProperties.EmptyMarkerCountsAsAbsent | app/api/publish/route.ts:137-143 | an empty marker is falsy, so the draft is sent as a creation, and the store refuses that |
| PublishProperties.NotFoundProbeMeansCreate | app/api/publish/route.ts:56-68 | a probe answering 404 leads to a creation without marker |
| PublishProperties.ProbeFailureSkipsWrite | app/api/publish/route.ts:63-153 | a non-404 probe failure is the draft's error (its message, or "Unknown error" when it has none), and no write is sent |
| PublishProperties.WriteFailureRecorded | app/api/publish/route.ts:131-153 | a failed write is the draft's error and changes no file |
| PublishProperties.TurnFrame | app/api/publish/route.ts:110-154 | a turn changes at most the content of its own draft's path, and only to that draft's content |
| PublishProperties.TitledFrame | app/api/publish/route.ts:126-154 | the same frame property for the `try` block of a titled draft |
| PublishProperties.LoopKeepsShasNonEmpty | app/api/publish/route.ts:110-155 | whatever fails, no empty marker appears during the loop |
| PublishProperties.HealthyTurnCommits | app/api/publish/route.ts:128-147 | with no injected fault, a titled draft is always committed at its path with its content |
| PublishProperties.HealthyBatchCommitsAll | app/api/publish/route.ts:107-155 | with no injected fault, every blank draft is skipped and every other draft is committed at its own path |
| PublishProperties.LastWriterWins | app/api/publish/route.ts:107-155 | with no injected fault, a titled draft's content ends up at its path unless a later draft maps to the same path |
| PublishProperties.LastDraftCommitted | app/api/publish/route.ts:107-155 | the last titled draft of a healthy batch leaves its content at its path |
| PublishProperties.LastDraftKeepsOthers | app/api/publish/route.ts:107-155 | the last draft's turn leaves every other path's content as it was |
| PublishProperties.EmptyBatchRejected | app/api/publish/route.ts:78-83 | an empty or missing batch is answered 400 "No drafts provided", before the credential check and before any request |
| PublishProperties.MissingTokenRejected | app/api/publish/route.ts:85-90 | a missing or empty credential is answered 500 "GitHub token not set" before any request |
| PublishProperties.RepoLookupFailureAborts | app/api/publish/route.ts:95-163 | a failed repository lookup is answered 500, after that single request |
| PublishProperties.FolderFailureAborts | app/api/publish/route.ts:46-163 | a non-404 listing failure is answered 500 with its message, or "Error checking folder" when it has none, and no draft is touched |
| PublishProperties.KeepWriteFailureAborts | app/api/publish/route.ts:37-163 | a failed placeholder write after a 404 listing is answered 500 with its message, or "Failed to publish drafts" when it has none, after exactly the repository lookup, the listing and the placeholder write, and no draft is touched |
| PublishProperties.SuccessIffPreflightPasses | app/api/publish/route.ts:79-157 | `success: true` comes exactly when the batch is non-empty, the credential is set and the lookup and bootstrap went through; then there is one result per draft under its label, whatever each draft's fate |
| PublishProperties.MyPostWrite | app/api/publish/route.ts:131-145 | "My Post" is not blank, and its write without a marker is a creation at `drafts/My_Post.md` with message "Create draft My Post" and content `# My Post\n\n` followed by the body |
| PublishProperties.PostAfterBootstrap | app/api/publish/route.ts:92-157 | once the checks pass, the reply is the loop's results, run from the state the bootstrap left |
| PublishProperties.BootstrapWritesPlaceholder | app/api/publish/route.ts:22-45 | with no folder, bootstrapping lists it, then writes only `drafts/.gitkeep`, empty and without marker |
| PublishProperties.BootstrapFailure | app/api/publish/route.ts:46-48 | a non-404 listing failure throws its message, or "Error checking folder" when it has none, so the thrown message is never empty |
| PublishProperties.BootstrapIdempotent | app/api/publish/route.ts:22-50 | after a bootstrap that went through, a second healthy one makes no write |
| PublishProperties.PublishOneNewDraft | app/api/publish/route.ts:75-157 | one healthy draft "My Post" on a store with no file: the exact request sequence, the two new files, the content, and the single receipt |
| PublishProperties.SingleLoop | app/api/publish/route.ts:110-155 | a batch of one draft is that draft's turn |
| PublishProperties.AddedDraftsAreNotSkipped | hooks/useDrafts.ts:34 | a collection built by `addDraft` is never skipped by the publisher |
| PublishProperties.TitledTurnIsNotSkipped | app/api/publish/route.ts:111-117 | a draft with a non-blank title never gets the skip note |
| PublishProperties.Submitted | lib/api.ts:60 | the client sends the local drafts whole as `{ drafts }`, and the route reads only their titles and bodies (app/api/publish/route.ts:78, 110-122): the batch keeps, in order, each local draft's title and body |
| Drafts.AddDraft | hooks/useDrafts.ts:33-42 | a blank title or body leaves the collection unchanged; otherwise the old drafts are followed by exactly one new draft with the given id, title, body and time |
| Drafts.AddKeepsFilled | hooks/useDrafts.ts:34 | adding keeps every held draft filled in |
| Drafts.AddThenDelete | hooks/useDrafts.ts:33-52 | adding under an unused id and then deleting that id gives back the collection |
| Drafts.Edit | hooks/useDrafts.ts:46 | defines the per-draft edit: a draft with the id gets the new title and body, any other draft is returned as is |
| Drafts.UpdateDraft | hooks/useDrafts.ts:44-48 | same length and order; every id and creation time kept; matching drafts get the new title and body; every other draft unchanged |
| Drafts.UpdateAbsent | hooks/useDrafts.ts:44-48 | an unused id changes nothing |
| Drafts.UpdateIdempotent | hooks/useDrafts.ts:44-48 | updating twice with the same text equals updating once |
| Drafts.UpdateThenDelete | hooks/useDrafts.ts:44-52 | deleting after updating the same id gives what deleting alone gives |
| Drafts.UpdateAcceptsBlank | hooks/useDrafts.ts:44-48 | unlike adding, updating accepts blank text |
| Drafts.DeleteDraft | hooks/useDrafts.ts:50-52 | deleting never lengthens the collection |
| Drafts.DeleteRemovesId | hooks/useDrafts.ts:51 | no draft with the id is left |
| Drafts.DeleteCounts | hooks/useDrafts.ts:51 | each draft with another id is kept as often as it occurred; those with the id are gone |
| Drafts.DeleteAppend | hooks/useDrafts.ts:51 | deletion works piece by piece on a concatenation, so the kept drafts keep their order |
| Drafts.DeleteAbsent | hooks/useDrafts.ts:51 | deleting an unused id changes nothing |
| Drafts.DeleteIdempotent | hooks/useDrafts.ts:50-52 | deleting twice equals deleting once |
| Drafts.DeleteKeepsFilled | hooks/useDrafts.ts:51 | deleting keeps every held draft filled in |
| Drafts.ClearAllDrafts | hooks/useDrafts.ts:54-57 | the collection becomes empty |

## Left out

- HTTP transport and Octokit, `NextResponse` wrapping, owner, repository
  name and committer identity: every request to the remote is a step of the
  abstract store. The store's own error messages (`"Not Found"`, the 422 and
  409 texts) belong to the model, not to this code.
- The default-branch name: the store has one branch. Reading
  `default_branch` is modelled only as a request that can fail.
- Base64 encoding of the content: the model keeps the content before
  encoding.
- Unparsable JSON bodies are modelled as `Request.Unparsable` with the
  parser's message. JSON values of the wrong type are left out: a non-string
  `title` makes `trim` or `replace` throw in the route, which ends in a 500;
  a missing or non-string `body` is interpolated as text (a missing one as
  `undefined`) and published without error. `DraftInput.body` is a string,
  so that path is not modelled. A `null` element of `drafts` is left out too.
- A path that is a directory, and a write applied remotely whose answer is
  lost: the store either applies a write and answers it, or does neither.
- Characters are Unicode scalar values, while the JavaScript code works on UTF-16
  code units. For a title with a character outside the Basic Multilingual
  Plane, the route writes two `_` and the model writes one.
- `localStorage` loading and saving, JSON and `Date` revival, and the React
  `useState`/`useEffect` wrapper of the hook are browser persistence and UI.
- `Date.now()` ids: the id and the creation time are parameters of
  `AddDraft`. They are not claimed to be unique.
- `Promise.all` fan-out in the drafts listing route and the client library is
  concurrent I/O.
- The UI clears local drafts whenever a publish answers `success: true`.
  `success: true` is sent even when some drafts failed (see
  `PublishProperties.SuccessIffPreflightPasses`), so those drafts are
  dropped locally. This is UI orchestration and is not modelled.
- Drafts.DeleteDraft: its own contract states only the length bound. Which
  drafts remain, how often and in what order is stated by
  `Drafts.DeleteRemovesId`, `Drafts.DeleteCounts` and `Drafts.DeleteAppend`,
  to keep the proofs that use the function small.
- Naming.Sanitize: its own contract states only the length. The
  per-character behaviour is `Naming.SanitizeChars`, for the same reason.
- Publish.PublishLoop: its own contract states only the result count. The
  order and the labels of the results are `PublishProperties.LoopAt` and
  `PublishProperties.LoopLabels`, for the same reason.
