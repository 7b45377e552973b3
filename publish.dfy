/** The publish route (app/api/publish/route.ts): `POST` takes an ordered
    batch of drafts, makes sure the drafts folder exists, and creates or
    updates one markdown file per draft, recording one result per draft.

    Each of the route's three procedures is a method on the remote store
    (`EnsureFolder`, `GetFileSha`, `Post`), proved equal to a function of
    the store's old state (`EnsureFolderSpec`, `GetFileShaSpec`,
    `PostSpec`); the properties of the route are lemmas about those
    functions (module PublishProperties). */
module Publish {
  import opened Text
  import opened Naming
  import opened Store

  /** A draft as the route receives it: only the title and the body are read,
      and the title may be missing. */
  datatype DraftInput = DraftInput(title: Option<string>, body: string)

  /** The request body: unreadable JSON, or an object whose `drafts` field
      may be missing. */
  datatype Request = Unparsable(message: string) | Parsed(drafts: Option<seq<DraftInput>>)

  /** The `response` of a result: the skip note, or the store's answer to the write. */
  datatype Payload = Note(text: string) | Commit(receipt: Receipt)

  /** A result holds either a `response` or an `error`. */
  datatype Outcome = Response(payload: Payload) | Error(message: string)

  datatype PublishResult = PublishResult(draft: string, outcome: Outcome)

  /** `{ success: true, results }`, or `{ error }` with its status. */
  datatype HttpReply = Published(results: seq<PublishResult>) | Failed(status: int, error: string)

  /** The faults the environment injects into one run: one per request made
      before the loop, and for the loop one per draft position for the probe
      and one for the write (a position with no entry is healthy). */
  datatype Env = Env(repoFault: Fault, listFault: Fault, keepFault: Fault,
                     probeFaults: seq<Fault>, writeFaults: seq<Fault>)

  /** What `getFileSha` gives back: a marker or `undefined`, or a thrown error. */
  datatype ShaLookup = Found(sha: Option<string>) | Thrown(message: string)

  /** What `ensureFolder` gives back: nothing, or a thrown error. */
  datatype FolderCheck = Ready | FolderError(message: string)

  const SkippedNote := "Skipped due to empty title"
  const KeepRequest := WriteRequest(KeepPath, "Create drafts folder", "", None)
  const UnknownError := "Unknown error"
  const FolderCheckFailed := "Error checking folder"
  const PublishFailed := "Failed to publish drafts"
  const NoDrafts := "No drafts provided"
  const NoToken := "GitHub token not set"
  const BadRequest := 400
  const ServerError := 500

  function FaultAt(faults: seq<Fault>, i: nat): Fault
  {
    if i < |faults| then faults[i] else Healthy
  }

  /** `!token`: the credential is missing or empty. */
  predicate TokenMissing(token: Option<string>)
  {
    token.None? || token.value == ""
  }

  // ---------------------------------------------------------------------
  // Specification functions

  /** `ensureFolder`: list the drafts folder; on 404 create the placeholder,
      on any other failure throw `message || "Error checking folder"`. */
  function EnsureFolderSpec(st: StoreState, listFault: Fault, keepFault: Fault): (StoreState, FolderCheck)
  {
    var listed := ListStep(st, DraftsDir, listFault);
    if listed.1.Ok? then (listed.0, Ready)
    else if listed.1.status == NotFound then
      var put := PutStep(listed.0, KeepRequest, keepFault);
      (put.0, if put.1.Ok? then Ready else FolderError(put.1.message))
    else (listed.0, FolderError(OrElse(listed.1.message, FolderCheckFailed)))
  }

  /** `getFileSha`: the marker of the path, `undefined` on 404, and any other
      failure thrown unchanged. */
  function GetFileShaSpec(st: StoreState, path: string, fault: Fault): (StoreState, ShaLookup)
  {
    var got := GetStep(st, path, fault);
    (got.0, if got.1.Ok? then Found(Some(got.1.value))
            else if got.1.status == NotFound then Found(None)
            else Thrown(got.1.message))
  }

  /** The write a non-blank draft is published with, given what the probe found. */
  function DraftWrite(title: string, body: string, sha: Option<string>): WriteRequest
  {
    WriteRequest(DraftPath(title), CommitMessage(sha, title), Content(title, body), ShaField(sha))
  }

  /** The `try` block for a draft with a title: probe, write, and record the
      store's answer, or the error of whichever request failed. */
  function PublishTitled(st: StoreState, title: string, body: string, probeFault: Fault, writeFault: Fault)
    : (r: (StoreState, PublishResult))
    ensures r.1.draft == title
    ensures r.1.outcome.Error? || r.1.outcome.payload.Commit?
  {
    var probe := GetFileShaSpec(st, DraftPath(title), probeFault);
    if probe.1.Thrown? then
      (probe.0, PublishResult(title, Error(OrElse(probe.1.message, UnknownError))))
    else
      var put := PutStep(probe.0, DraftWrite(title, body, probe.1.sha), writeFault);
      (put.0, PublishResult(title, if put.1.Ok? then Response(Commit(put.1.value))
                                   else Error(OrElse(put.1.message, UnknownError))))
  }

  /** One turn of the loop: a blank title is skipped without any request,
      any other draft is published. */
  function PublishDraftSpec(st: StoreState, d: DraftInput, probeFault: Fault, writeFault: Fault)
    : (r: (StoreState, PublishResult))
    ensures r.1.draft == Label(d.title)
  {
    if TitleBlank(d.title) then
      (st, PublishResult(Label(d.title), Response(Note(SkippedNote))))
    else
      FilledTitleIsItsLabel(d.title);
      PublishTitled(st, d.title.value, d.body, probeFault, writeFault)
  }

  /** The loop over the drafts `ds`, from store state `st`: one result per
      draft (the order and the labels are lemmas of module PublishProperties). */
  function PublishLoop(st: StoreState, ds: seq<DraftInput>, env: Env): (r: (StoreState, seq<PublishResult>))
    ensures |r.1| == |ds|
    decreases |ds|
  {
    if ds == [] then (st, [])
    else
      var n := |ds| - 1;
      var prev := PublishLoop(st, ds[..n], env);
      var turn := PublishDraftSpec(prev.0, ds[n], FaultAt(env.probeFaults, n), FaultAt(env.writeFaults, n));
      (turn.0, prev.1 + [turn.1])
  }

  /** `POST`: the early exits, the branch lookup, the folder bootstrap, then
      the loop; anything thrown before the loop becomes a 500. */
  function PostSpec(st: StoreState, req: Request, token: Option<string>, env: Env): (StoreState, HttpReply)
  {
    match req
    case Unparsable(msg) => (st, Failed(ServerError, OrElse(msg, PublishFailed)))
    case Parsed(drafts) =>
      if drafts.None? || |drafts.value| == 0 then (st, Failed(BadRequest, NoDrafts))
      else if TokenMissing(token) then (st, Failed(ServerError, NoToken))
      else
        var repo := FetchRepoStep(st, env.repoFault);
        if repo.1.Err? then (repo.0, Failed(ServerError, OrElse(repo.1.message, PublishFailed)))
        else
          var folder := EnsureFolderSpec(repo.0, env.listFault, env.keepFault);
          if folder.1.FolderError? then (folder.0, Failed(ServerError, OrElse(folder.1.message, PublishFailed)))
          else
            var loop := PublishLoop(folder.0, drafts.value, env);
            (loop.0, Published(loop.1))
  }

  // ---------------------------------------------------------------------
  // The route's procedures

  method EnsureFolder(store: RemoteStore, listFault: Fault, keepFault: Fault) returns (r: FolderCheck)
    modifies store
    ensures (store.State(), r) == EnsureFolderSpec(old(store.State()), listFault, keepFault)
  {
    var listed := store.ListFolder(DraftsDir, listFault);
    if listed.Err? {
      if listed.status == NotFound {
        var put := store.PutFile(KeepRequest, keepFault);
        if put.Err? {
          return FolderError(put.message);
        }
      } else {
        return FolderError(OrElse(listed.message, FolderCheckFailed));
      }
    }
    r := Ready;
  }

  method GetFileSha(store: RemoteStore, path: string, fault: Fault) returns (r: ShaLookup)
    modifies store
    ensures (store.State(), r) == GetFileShaSpec(old(store.State()), path, fault)
  {
    var got := store.GetFile(path, fault);
    if got.Ok? {
      return Found(Some(got.value));
    }
    if got.status == NotFound {
      return Found(None);
    }
    r := Thrown(got.message);
  }

  method Post(store: RemoteStore, req: Request, token: Option<string>, env: Env) returns (reply: HttpReply)
    modifies store
    ensures (store.State(), reply) == PostSpec(old(store.State()), req, token, env)
  {
    if req.Unparsable? {
      return Failed(ServerError, OrElse(req.message, PublishFailed));
    }
    if req.drafts.None? || |req.drafts.value| == 0 {
      return Failed(BadRequest, NoDrafts);
    }
    if TokenMissing(token) {
      return Failed(ServerError, NoToken);
    }
    var repo := store.FetchRepo(env.repoFault);
    if repo.Err? {
      return Failed(ServerError, OrElse(repo.message, PublishFailed));
    }
    var folder := EnsureFolder(store, env.listFault, env.keepFault);
    if folder.FolderError? {
      return Failed(ServerError, OrElse(folder.message, PublishFailed));
    }

    var drafts := req.drafts.value;
    ghost var start := store.State();
    var results: seq<PublishResult> := [];
    for i := 0 to |drafts|
      invariant (store.State(), results) == PublishLoop(start, drafts[..i], env)
    {
      assert drafts[..i + 1][..i] == drafts[..i];
      var draft := drafts[i];
      if TitleBlank(draft.title) {
        results := results + [PublishResult(Label(draft.title), Response(Note(SkippedNote)))];
        continue;
      }
      var title := draft.title.value;
      var path := DraftPath(title);
      var content := Content(title, draft.body);
      var sha := GetFileSha(store, path, FaultAt(env.probeFaults, i));
      if sha.Thrown? {
        results := results + [PublishResult(title, Error(OrElse(sha.message, UnknownError)))];
        continue;
      }
      var res := store.PutFile(WriteRequest(path, CommitMessage(sha.sha, title), content, ShaField(sha.sha)),
                               FaultAt(env.writeFaults, i));
      if res.Ok? {
        results := results + [PublishResult(title, Response(Commit(res.value)))];
      } else {
        results := results + [PublishResult(title, Error(OrElse(res.message, UnknownError)))];
      }
    }
    assert drafts[..|drafts|] == drafts;
    reply := Published(results);
  }
}
