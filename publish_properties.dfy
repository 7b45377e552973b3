/** What the publish route promises, proved about the specification
    functions of module Publish (and so, through their ensures, about the
    methods `Post`, `EnsureFolder` and `GetFileSha`). */
module PublishProperties {
  import opened Text
  import opened Naming
  import opened Store
  import opened Publish
  import Drafts

  /** The store state just before the loop reaches draft `i`. */
  function StateBefore(st: StoreState, ds: seq<DraftInput>, env: Env, i: nat): StoreState
    requires i <= |ds|
  {
    PublishLoop(st, ds[..i], env).0
  }

  /** The turn of the loop for draft `i`, taken from the state it finds. */
  function Turn(st: StoreState, ds: seq<DraftInput>, env: Env, i: nat): (StoreState, PublishResult)
    requires i < |ds|
  {
    PublishDraftSpec(StateBefore(st, ds, env, i), ds[i], FaultAt(env.probeFaults, i), FaultAt(env.writeFaults, i))
  }

  predicate HealthyLoop(env: Env, n: nat)
  {
    forall i :: 0 <= i < n ==> FaultAt(env.probeFaults, i).Healthy? && FaultAt(env.writeFaults, i).Healthy?
  }

  // ---------------------------------------------------------------------
  // Result count and order

  /** Result `i` is what draft `i`'s turn records, and the state after that
      turn is the state the next draft finds: the drafts are handled one
      after the other, in input order. */
  lemma LoopAt(st: StoreState, ds: seq<DraftInput>, env: Env, i: nat)
    requires i < |ds|
    ensures PublishLoop(st, ds, env).1[i] == Turn(st, ds, env, i).1
    ensures StateBefore(st, ds, env, i + 1) == Turn(st, ds, env, i).0
  {
    var upto := ds[..i + 1];
    LoopUnfold(st, upto, env);
    assert upto[..i] == ds[..i] && upto[i] == ds[i];
    assert Turn(st, upto, env, i) == Turn(st, ds, env, i);
    LoopPrefix(st, ds, env, i + 1);
  }

  /** The results of a prefix of the batch are the same prefix of the results:
      a later draft never changes what an earlier one recorded. */
  lemma {:induction false} LoopPrefix(st: StoreState, ds: seq<DraftInput>, env: Env, j: nat)
    requires j <= |ds|
    ensures PublishLoop(st, ds[..j], env).1 == PublishLoop(st, ds, env).1[..j]
    decreases |ds|
  {
    if j == |ds| {
      assert ds[..j] == ds;
    } else {
      var n := |ds| - 1;
      var prefix := ds[..n];
      LoopPrefix(st, prefix, env, j);
      assert prefix[..j] == ds[..j];
      LoopUnfold(st, ds, env);
      var rs := PublishLoop(st, prefix, env).1;
      assert |rs| == n;
      assert PublishLoop(st, ds, env).1[..j] == rs[..j];
    }
  }

  /** One result per draft, each filed under its draft's label. */
  lemma LoopLabels(st: StoreState, ds: seq<DraftInput>, env: Env)
    ensures |PublishLoop(st, ds, env).1| == |ds|
    ensures forall i :: 0 <= i < |ds| ==> PublishLoop(st, ds, env).1[i].draft == Label(ds[i].title)
  {
    forall i | 0 <= i < |ds|
      ensures PublishLoop(st, ds, env).1[i].draft == Label(ds[i].title)
    {
      LoopAt(st, ds, env, i);
    }
  }

  /** One unfolding of the loop: the last draft's turn follows the others. */
  lemma LoopUnfold(st: StoreState, ds: seq<DraftInput>, env: Env)
    requires ds != []
    ensures var n := |ds| - 1;
            var before := PublishLoop(st, ds[..n], env);
            var last := Turn(st, ds, env, n);
            PublishLoop(st, ds, env) == (last.0, before.1 + [last.1])
  {
  }

  /** A draft whose title is missing or blank gets the skip record and makes
      no request: the store, call log included, is exactly as it was. The
      label is the title itself unless it is missing or empty. */
  lemma SkipRule(st: StoreState, ds: seq<DraftInput>, env: Env, i: nat)
    requires i < |ds| && TitleBlank(ds[i].title)
    ensures PublishLoop(st, ds, env).1[i] == PublishResult(Label(ds[i].title), Response(Note(SkippedNote)))
    ensures StateBefore(st, ds, env, i + 1) == StateBefore(st, ds, env, i)
  {
    LoopAt(st, ds, env, i);
  }

  /** A title of white space only is skipped but keeps its own text as label. */
  lemma WhiteSpaceTitleKeepsItsText(st: StoreState, body: string, pf: Fault, wf: Fault)
    ensures PublishDraftSpec(st, DraftInput(Some("  "), body), pf, wf)
         == (st, PublishResult("  ", Response(Note(SkippedNote))))
  {
    assert TitleBlank(Some("  ")) by {
      assert IsWhiteSpace("  "[0]) && IsWhiteSpace("  "[1]);
    }
  }

  // ---------------------------------------------------------------------
  // Create versus update (one turn)

  /** A draft whose path is absent is probed and then created: the write
      goes to the sanitised path, carries no marker, says "Create draft",
      and holds the heading, a blank line and the body. When healthy the
      write succeeds and its receipt is the result. */
  lemma CreateWhenAbsent(st: StoreState, d: DraftInput, wf: Fault)
    requires !TitleBlank(d.title) && DraftPath(d.title.value) !in st.files
    ensures var t := d.title.value;
            var path := DraftPath(t);
            var r := PublishDraftSpec(st, d, Healthy, wf);
            && r.0.calls == st.calls + [GetCall(path), PutCall(WriteRequest(path, CreatePrefix + t, Content(t, d.body), None))]
            && (wf.Healthy? ==>
                  && r.1 == PublishResult(t, Response(Commit(Receipt(path, MintSha(st.minted)))))
                  && r.0.files == st.files[path := MintSha(st.minted)]
                  && r.0.contents == st.contents[path := Content(t, d.body)])
  {
    var t := d.title.value;
    var path := DraftPath(t);
    assert GetFileShaSpec(st, path, Healthy) == (Logged(st, GetCall(path)), Found(None));
    assert DraftWrite(t, d.body, None) == WriteRequest(path, CreatePrefix + t, Content(t, d.body), None);
  }

  /** A draft whose path exists is probed and then updated: the write carries
      the marker the probe read and says "Update draft". When healthy the
      store accepts it and the path moves to a new revision. */
  lemma UpdateWhenPresent(st: StoreState, d: DraftInput, wf: Fault)
    requires !TitleBlank(d.title)
    requires DraftPath(d.title.value) in st.files && st.files[DraftPath(d.title.value)] != ""
    ensures var t := d.title.value;
            var path := DraftPath(t);
            var r := PublishDraftSpec(st, d, Healthy, wf);
            && r.0.calls == st.calls + [GetCall(path), PutCall(WriteRequest(path, UpdatePrefix + t, Content(t, d.body), Some(st.files[path])))]
            && (wf.Healthy? ==>
                  && r.1 == PublishResult(t, Response(Commit(Receipt(path, MintSha(st.minted)))))
                  && r.0.files == st.files[path := MintSha(st.minted)]
                  && r.0.contents == st.contents[path := Content(t, d.body)])
  {
    var path := DraftPath(d.title.value);
    assert CommitMessage(Some(st.files[path]), d.title.value) == UpdatePrefix + d.title.value;
  }

  /** An existing file whose marker is empty is treated as absent, because an
      empty marker is falsy: the draft is sent as a creation without marker,
      which the store refuses for a path it holds. */
  lemma EmptyMarkerCountsAsAbsent(st: StoreState, d: DraftInput)
    requires !TitleBlank(d.title)
    requires DraftPath(d.title.value) in st.files && st.files[DraftPath(d.title.value)] == ""
    ensures var t := d.title.value;
            var path := DraftPath(t);
            var r := PublishDraftSpec(st, d, Healthy, Healthy);
            && r.0 == Logged(Logged(st, GetCall(path)), PutCall(WriteRequest(path, CreatePrefix + t, Content(t, d.body), None)))
            && r.1 == PublishResult(t, Error(ShaMissingMessage))
  {
  }

  /** A probe that fails with 404 means "absent", whatever the store holds:
      the draft is sent as a creation without marker. */
  lemma NotFoundProbeMeansCreate(st: StoreState, d: DraftInput, m: string, wf: Fault)
    requires !TitleBlank(d.title)
    ensures var t := d.title.value;
            var path := DraftPath(t);
            PublishDraftSpec(st, d, Fails(NotFound, m), wf).0.calls
              == st.calls + [GetCall(path), PutCall(WriteRequest(path, CreatePrefix + t, Content(t, d.body), None))]
  {
    assert CommitMessage(None, d.title.value) == CreatePrefix + d.title.value;
  }

  // ---------------------------------------------------------------------
  // Failure isolation (one turn, then the batch)

  /** A probe failing with any status but 404 is recorded as the draft's
      error (`message || "Unknown error"`) and no write is attempted. */
  lemma ProbeFailureSkipsWrite(st: StoreState, d: DraftInput, status: int, m: string, wf: Fault)
    requires !TitleBlank(d.title) && status != NotFound
    ensures PublishDraftSpec(st, d, Fails(status, m), wf)
         == (Logged(st, GetCall(DraftPath(d.title.value))), PublishResult(d.title.value, Error(OrElse(m, UnknownError))))
  {
  }

  /** A failed write is recorded as the draft's error and changes no file. */
  lemma WriteFailureRecorded(st: StoreState, d: DraftInput, pf: Fault, status: int, m: string)
    requires !TitleBlank(d.title)
    requires GetFileShaSpec(st, DraftPath(d.title.value), pf).1.Found?
    ensures var r := PublishDraftSpec(st, d, pf, Fails(status, m));
            && r.1 == PublishResult(d.title.value, Error(OrElse(m, UnknownError)))
            && r.0.files == st.files && r.0.contents == st.contents && r.0.minted == st.minted
  {
  }

  /** A turn writes at most one file, its own draft's, with that draft's
      content: every other path keeps its content, whatever the faults. */
  lemma TurnFrame(st: StoreState, d: DraftInput, pf: Fault, wf: Fault)
    ensures var s := PublishDraftSpec(st, d, pf, wf).0;
            || s.contents == st.contents
            || (!TitleBlank(d.title) && s.contents == st.contents[DraftPath(d.title.value) := Content(d.title.value, d.body)])
  {
    if !TitleBlank(d.title) {
      TitledFrame(st, d.title.value, d.body, pf, wf);
    }
  }

  /** The publishing of a titled draft changes at most the content of its path. */
  lemma TitledFrame(st: StoreState, t: string, body: string, pf: Fault, wf: Fault)
    ensures var s := PublishTitled(st, t, body, pf, wf).0;
            s.contents == st.contents || s.contents == st.contents[DraftPath(t) := Content(t, body)]
  {
    var probe := GetFileShaSpec(st, DraftPath(t), pf);
    assert probe.0.contents == st.contents;
    if probe.1.Found? {
      var req := DraftWrite(t, body, probe.1.sha);
      var put := PutStep(probe.0, req, wf);
      assert put.0.contents == st.contents || put.0.contents == st.contents[req.path := req.content];
    }
  }

  /** Whatever fails, markers stay non-empty through the whole loop. */
  lemma {:induction false} LoopKeepsShasNonEmpty(st: StoreState, ds: seq<DraftInput>, env: Env)
    requires ShasNonEmpty(st.files)
    ensures ShasNonEmpty(PublishLoop(st, ds, env).0.files)
    decreases |ds|
  {
    if ds != [] {
      var n := |ds| - 1;
      LoopKeepsShasNonEmpty(st, ds[..n], env);
      var s1 := PublishLoop(st, ds[..n], env).0;
      if !TitleBlank(ds[n].title) {
        var t := ds[n].title.value;
        var probe := GetFileShaSpec(s1, DraftPath(t), FaultAt(env.probeFaults, n));
        if probe.1.Found? {
          PutKeepsShasNonEmpty(probe.0, DraftWrite(t, ds[n].body, probe.1.sha), FaultAt(env.writeFaults, n));
        }
      }
    }
  }

  /** With no injected fault, a non-blank draft is always committed: the
      sequential probe-then-write never conflicts with the store. */
  lemma HealthyTurnCommits(st: StoreState, d: DraftInput)
    requires ShasNonEmpty(st.files) && !TitleBlank(d.title)
    ensures var t := d.title.value;
            var r := PublishDraftSpec(st, d, Healthy, Healthy);
            && r.1 == PublishResult(t, Response(Commit(Receipt(DraftPath(t), MintSha(st.minted)))))
            && r.0.contents == st.contents[DraftPath(t) := Content(t, d.body)]
  {
    if DraftPath(d.title.value) in st.files {
      UpdateWhenPresent(st, d, Healthy);
    } else {
      CreateWhenAbsent(st, d, Healthy);
    }
  }

  /** In a batch with no injected fault, every blank draft is skipped and
      every other one is committed at its own path. */
  lemma HealthyBatchCommitsAll(st: StoreState, ds: seq<DraftInput>, env: Env, i: nat)
    requires ShasNonEmpty(st.files) && HealthyLoop(env, |ds|) && i < |ds|
    ensures var r := PublishLoop(st, ds, env).1[i];
            if TitleBlank(ds[i].title) then r.outcome == Response(Note(SkippedNote))
            else r.outcome.Response? && r.outcome.payload.Commit?
                 && r.outcome.payload.receipt.path == DraftPath(ds[i].title.value)
  {
    LoopAt(st, ds, env, i);
    if !TitleBlank(ds[i].title) {
      LoopKeepsShasNonEmpty(st, ds[..i], env);
      HealthyTurnCommits(StateBefore(st, ds, env, i), ds[i]);
    }
  }

  /** Last writer wins: after a batch with no injected fault, the file of a
      non-blank draft holds that draft's content unless a later draft of the
      batch has a title that sanitises to the same path. */
  lemma {:induction false} LastWriterWins(st: StoreState, ds: seq<DraftInput>, env: Env, i: nat)
    requires ShasNonEmpty(st.files) && HealthyLoop(env, |ds|)
    requires i < |ds| && !TitleBlank(ds[i].title)
    requires forall j :: i < j < |ds| && !TitleBlank(ds[j].title) ==>
               DraftPath(ds[j].title.value) != DraftPath(ds[i].title.value)
    ensures var contents := PublishLoop(st, ds, env).0.contents;
            var t := ds[i].title.value;
            DraftPath(t) in contents && contents[DraftPath(t)] == Content(t, ds[i].body)
    decreases |ds|
  {
    var n := |ds| - 1;
    if i == n {
      LastDraftCommitted(st, ds, env);
    } else {
      var prefix := ds[..n];
      assert prefix[i] == ds[i];
      assert forall j :: i < j < |prefix| ==> prefix[j] == ds[j];
      LastWriterWins(st, prefix, env, i);
      LastDraftKeepsOthers(st, ds, env, DraftPath(ds[i].title.value));
    }
  }

  /** The last draft of a healthy batch, when titled, leaves its content at its path. */
  lemma LastDraftCommitted(st: StoreState, ds: seq<DraftInput>, env: Env)
    requires ShasNonEmpty(st.files) && HealthyLoop(env, |ds|)
    requires ds != [] && !TitleBlank(ds[|ds| - 1].title)
    ensures var contents := PublishLoop(st, ds, env).0.contents;
            var t := ds[|ds| - 1].title.value;
            DraftPath(t) in contents && contents[DraftPath(t)] == Content(t, ds[|ds| - 1].body)
  {
    var n := |ds| - 1;
    LoopUnfold(st, ds, env);
    LoopKeepsShasNonEmpty(st, ds[..n], env);
    HealthyTurnCommits(StateBefore(st, ds, env, n), ds[n]);
  }

  /** The last draft's turn leaves the content of every other path as it was. */
  lemma LastDraftKeepsOthers(st: StoreState, ds: seq<DraftInput>, env: Env, p: string)
    requires ds != []
    requires TitleBlank(ds[|ds| - 1].title) || DraftPath(ds[|ds| - 1].title.value) != p
    ensures var before := PublishLoop(st, ds[..|ds| - 1], env).0.contents;
            var after := PublishLoop(st, ds, env).0.contents;
            (p in after <==> p in before) && (p in before ==> after[p] == before[p])
  {
    var n := |ds| - 1;
    LoopUnfold(st, ds, env);
    TurnFrame(StateBefore(st, ds, env, n), ds[n], FaultAt(env.probeFaults, n), FaultAt(env.writeFaults, n));
  }

  // ---------------------------------------------------------------------
  // Batch-level answer and early exits

  /** An empty or missing batch is answered 400 before the credential is
      looked at and before any request is made. */
  lemma EmptyBatchRejected(st: StoreState, drafts: Option<seq<DraftInput>>, token: Option<string>, env: Env)
    requires drafts.None? || drafts == Some([])
    ensures PostSpec(st, Parsed(drafts), token, env) == (st, Failed(BadRequest, NoDrafts))
  {
  }

  /** A missing or empty credential is answered 500 before any request. */
  lemma MissingTokenRejected(st: StoreState, ds: seq<DraftInput>, token: Option<string>, env: Env)
    requires ds != [] && TokenMissing(token)
    ensures PostSpec(st, Parsed(Some(ds)), token, env) == (st, Failed(ServerError, NoToken))
  {
  }

  /** A failed branch lookup is answered 500, after that one request only. */
  lemma RepoLookupFailureAborts(st: StoreState, ds: seq<DraftInput>, token: Option<string>, env: Env)
    requires ds != [] && !TokenMissing(token) && env.repoFault.Fails?
    ensures PostSpec(st, Parsed(Some(ds)), token, env)
         == (Logged(st, RepoCall), Failed(ServerError, OrElse(env.repoFault.message, PublishFailed)))
  {
  }

  /** A folder listing failing with any status but 404 is answered 500 with
      `message || "Error checking folder"`; no draft is touched. */
  lemma FolderFailureAborts(st: StoreState, ds: seq<DraftInput>, token: Option<string>, env: Env)
    requires ds != [] && !TokenMissing(token) && env.repoFault.Healthy?
    requires env.listFault.Fails? && env.listFault.status != NotFound
    ensures PostSpec(st, Parsed(Some(ds)), token, env)
         == (Logged(Logged(st, RepoCall), ListCall(DraftsDir)),
             Failed(ServerError, OrElse(env.listFault.message, FolderCheckFailed)))
  {
  }

  /** When the folder is missing and writing its placeholder fails, the
      error escapes to the outer handler: 500 with the write's message, or
      "Failed to publish drafts" when it has none, and no draft is probed. */
  lemma KeepWriteFailureAborts(st: StoreState, ds: seq<DraftInput>, token: Option<string>, env: Env)
    requires ds != [] && !TokenMissing(token) && env.repoFault.Healthy?
    requires !IsFolder(st.files, DraftsDir) && env.listFault.Healthy? && env.keepFault.Fails?
    ensures PostSpec(st, Parsed(Some(ds)), token, env)
         == (Logged(Logged(Logged(st, RepoCall), ListCall(DraftsDir)), PutCall(KeepRequest)),
             Failed(ServerError, OrElse(env.keepFault.message, PublishFailed)))
  {
  }

  /** The batch is answered `success: true` exactly when it is well formed and
      the branch lookup and the folder bootstrap went through; then there is
      one result per draft, in order, whatever happened to each draft. */
  lemma SuccessIffPreflightPasses(st: StoreState, req: Request, token: Option<string>, env: Env)
    ensures var r := PostSpec(st, req, token, env).1;
            r.Published? <==>
              && req.Parsed? && req.drafts.Some? && req.drafts.value != [] && !TokenMissing(token)
              && env.repoFault.Healthy?
              && EnsureFolderSpec(Logged(st, RepoCall), env.listFault, env.keepFault).1 == Ready
    ensures var r := PostSpec(st, req, token, env).1;
            r.Published? ==>
              && |r.results| == |req.drafts.value|
              && forall i :: 0 <= i < |r.results| ==> r.results[i].draft == Label(req.drafts.value[i].title)
  {
    if PostSpec(st, req, token, env).1.Published? {
      var s2 := EnsureFolderSpec(Logged(st, RepoCall), env.listFault, env.keepFault).0;
      LoopLabels(s2, req.drafts.value, env);
    }
  }

  // ---------------------------------------------------------------------
  // Folder bootstrap

  /** On a store with no drafts folder, bootstrapping makes exactly one
      write: the empty placeholder, without marker. */
  lemma BootstrapWritesPlaceholder(st: StoreState)
    requires !IsFolder(st.files, DraftsDir)
    ensures var r := EnsureFolderSpec(st, Healthy, Healthy);
            && r.1 == Ready
            && r.0.calls == st.calls + [ListCall(DraftsDir), PutCall(WriteRequest(KeepPath, "Create drafts folder", "", None))]
            && r.0.files == st.files[KeepPath := MintSha(st.minted)]
            && r.0.contents == st.contents[KeepPath := ""]
            && r.0.minted == st.minted + 1
  {
    assert DraftsDir + "/" <= KeepPath;
  }

  /** A listing failure other than 404 is thrown on as
      `message || "Error checking folder"`, which is never empty. */
  lemma BootstrapFailure(st: StoreState, status: int, m: string, kf: Fault)
    requires status != NotFound
    ensures EnsureFolderSpec(st, Fails(status, m), kf)
         == (Logged(st, ListCall(DraftsDir)), FolderError(OrElse(m, FolderCheckFailed)))
    ensures OrElse(m, FolderCheckFailed) != ""
  {
  }

  /** After a bootstrap that went through, a second one with a healthy
      listing makes no write. */
  lemma BootstrapIdempotent(st: StoreState, lf: Fault, kf: Fault, kf2: Fault)
    requires EnsureFolderSpec(st, lf, kf).1 == Ready
    ensures var s1 := EnsureFolderSpec(st, lf, kf).0;
            EnsureFolderSpec(s1, Healthy, kf2) == (Logged(s1, ListCall(DraftsDir)), Ready)
  {
    var s1 := EnsureFolderSpec(st, lf, kf).0;
    var listed := ListStep(st, DraftsDir, lf);
    if listed.1.Ok? {
      assert s1.files == st.files;
    } else {
      assert KeepPath in s1.files;
      assert DraftsDir + "/" <= KeepPath;
    }
    assert IsFolder(s1.files, DraftsDir);
  }

  // ---------------------------------------------------------------------
  // A whole run

  /** One new draft titled "My Post" against a store holding no file, with
      every request healthy: the folder placeholder is created, then
      `drafts/My_Post.md` is created with the heading, a blank line and the
      body, and the one result is the receipt of that second revision. */
  lemma PublishOneNewDraft(st: StoreState, body: string, token: Option<string>, env: Env)
    requires st.files == map[] && !TokenMissing(token)
    requires env.repoFault.Healthy? && env.listFault.Healthy? && env.keepFault.Healthy? && HealthyLoop(env, 1)
    ensures var r := PostSpec(st, Parsed(Some([DraftInput(Some("My Post"), body)])), token, env);
            && r.1 == Published([PublishResult("My Post", Response(Commit(Receipt("drafts/My_Post.md", MintSha(st.minted + 1)))))])
            && r.0.calls == st.calls + [RepoCall, ListCall("drafts"), PutCall(KeepRequest), GetCall("drafts/My_Post.md"),
                                        PutCall(WriteRequest("drafts/My_Post.md", "Create draft My Post", "# My Post\n\n" + body, None))]
            && r.0.files == map[KeepPath := MintSha(st.minted), "drafts/My_Post.md" := MintSha(st.minted + 1)]
            && "drafts/My_Post.md" in r.0.contents && r.0.contents["drafts/My_Post.md"] == "# My Post\n\n" + body
  {
    var d := DraftInput(Some("My Post"), body);
    var path := "drafts/My_Post.md";
    var content := "# My Post\n\n" + body;
    var keep := PutCall(KeepRequest);
    var put := PutCall(WriteRequest(path, "Create draft My Post", content, None));
    var s1 := Logged(st, RepoCall);
    var s2 := EnsureFolderSpec(s1, Healthy, Healthy).0;
    assert s2.files == map[KeepPath := MintSha(st.minted)] && s2.minted == st.minted + 1
        && s2.calls == st.calls + [RepoCall] + [ListCall("drafts"), keep] by {
      BootstrapWritesPlaceholder(s1);
    }
    var turn := PublishDraftSpec(s2, d, Healthy, Healthy);
    MyPostTurn(s2, body);
    var r := PostSpec(st, Parsed(Some([d])), token, env);
    assert r == (turn.0, Published([turn.1])) by {
      assert FaultAt(env.probeFaults, 0) == Healthy;
      assert FaultAt(env.writeFaults, 0) == Healthy;
      SingleLoop(s2, d, env);
      BootstrapWritesPlaceholder(s1);
      PostAfterBootstrap(st, [d], token, env);
    }
    assert r.0.calls == st.calls + [RepoCall, ListCall("drafts"), keep, GetCall(path), put] by {
      RunLog(st.calls, RepoCall, ListCall("drafts"), keep, GetCall(path), put);
    }
    assert r.0.files == map[KeepPath := MintSha(st.minted), path := MintSha(st.minted + 1)];
  }

  /** The turn of a healthy draft "My Post" whose path is absent: it is
      probed and created, and its receipt is the result. */
  lemma MyPostTurn(st: StoreState, body: string)
    requires "drafts/My_Post.md" !in st.files
    ensures var path := "drafts/My_Post.md";
            var turn := PublishDraftSpec(st, DraftInput(Some("My Post"), body), Healthy, Healthy);
            && turn.1 == PublishResult("My Post", Response(Commit(Receipt(path, MintSha(st.minted)))))
            && turn.0.calls == st.calls + [GetCall(path), PutCall(WriteRequest(path, "Create draft My Post", "# My Post\n\n" + body, None))]
            && turn.0.files == st.files[path := MintSha(st.minted)]
            && turn.0.contents == st.contents[path := "# My Post\n\n" + body]
  {
    MyPostWrite(body);
    CreateWhenAbsent(st, DraftInput(Some("My Post"), body), Healthy);
  }

  /** The request log of a one-draft run, as the lookup, the folder
      bootstrap and the turn append to it, read as one list of requests. */
  lemma RunLog(log: seq<Call>, lookup: Call, list: Call, keep: Call, probe: Call, write: Call)
    ensures log + [lookup] + [list, keep] + [probe, write] == log + [lookup, list, keep, probe, write]
  {
  }

  /** The title "My Post" is not blank, and when no marker was found its
      write creates `drafts/My_Post.md` with the heading before the body. */
  lemma MyPostWrite(body: string)
    ensures !TitleBlank(Some("My Post"))
    ensures DraftWrite("My Post", body, None)
         == WriteRequest("drafts/My_Post.md", "Create draft My Post", "# My Post\n\n" + body, None)
  {
    MyPostPath();
    VisibleStartNotBlank("My Post");
    assert CommitMessage(None, "My Post") == "Create draft My Post";
    assert Content("My Post", body) == "# My Post\n\n" + body;
  }

  /** A run whose pre-flight passes answers the loop's results, from the
      state the folder bootstrap left. */
  lemma PostAfterBootstrap(st: StoreState, ds: seq<DraftInput>, token: Option<string>, env: Env)
    requires ds != [] && !TokenMissing(token) && env.repoFault.Healthy?
    requires EnsureFolderSpec(Logged(st, RepoCall), env.listFault, env.keepFault).1 == Ready
    ensures var s2 := EnsureFolderSpec(Logged(st, RepoCall), env.listFault, env.keepFault).0;
            var loop := PublishLoop(s2, ds, env);
            PostSpec(st, Parsed(Some(ds)), token, env) == (loop.0, Published(loop.1))
  {
  }

  /** A batch of one draft is that draft's turn. */
  lemma SingleLoop(st: StoreState, d: DraftInput, env: Env)
    ensures var turn := PublishDraftSpec(st, d, FaultAt(env.probeFaults, 0), FaultAt(env.writeFaults, 0));
            PublishLoop(st, [d], env) == (turn.0, [turn.1])
  {
    LoopUnfold(st, [d], env);
    assert [d][..0] == [];
    assert StateBefore(st, [d], env, 0) == st;
    var turn := PublishDraftSpec(st, d, FaultAt(env.probeFaults, 0), FaultAt(env.writeFaults, 0));
    assert Turn(st, [d], env, 0) == turn;
    assert PublishLoop(st, [d][..0], env).1 + [turn.1] == [turn.1];
  }

  // ---------------------------------------------------------------------
  // Local drafts published

  /** The batch sent for a local collection: title and body of each draft. */
  function Submitted(ds: seq<Drafts.Draft>): (r: seq<DraftInput>)
    ensures |r| == |ds|
    ensures forall i :: 0 <= i < |ds| ==> r[i] == DraftInput(Some(ds[i].title), ds[i].body)
  {
    if ds == [] then [] else [DraftInput(Some(ds[0].title), ds[0].body)] + Submitted(ds[1..])
  }

  /** Drafts that went through `addDraft` are never skipped by the publisher,
      since adding refuses a blank title. */
  lemma AddedDraftsAreNotSkipped(st: StoreState, ds: seq<Drafts.Draft>, env: Env, i: nat)
    requires Drafts.AllFilled(ds) && i < |ds|
    ensures PublishLoop(st, Submitted(ds), env).1[i].outcome != Response(Note(SkippedNote))
  {
    var batch := Submitted(ds);
    LoopAt(st, batch, env, i);
    assert Drafts.Filled(ds[i]);
    assert !TitleBlank(batch[i].title);
    TitledTurnIsNotSkipped(StateBefore(st, batch, env, i), batch[i], FaultAt(env.probeFaults, i), FaultAt(env.writeFaults, i));
  }

  /** A draft with a title is never filed as skipped. */
  lemma TitledTurnIsNotSkipped(st: StoreState, d: DraftInput, pf: Fault, wf: Fault)
    requires !TitleBlank(d.title)
    ensures PublishDraftSpec(st, d, pf, wf).1.outcome != Response(Note(SkippedNote))
  {
  }
}
