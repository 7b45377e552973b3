/** The remote file store the publish route talks to, reduced to what the
    route relies on: a map from file path to revision marker ("sha"), the
    content last written at each path, and the log of every request the
    store received. Transport failures are not decided by the store: every
    request comes with a `Fault` that either lets the store answer or makes
    the request fail with a given status and message. */
module Store {
  import opened Text

  /** What the environment does to one request: nothing, or make it fail. */
  datatype Fault = Healthy | Fails(status: int, message: string)

  /** The store's answer: a value, or an error carrying a status and a
      message (an empty message stands for a missing one). */
  datatype Reply<T> = Ok(value: T) | Err(status: int, message: string)

  /** A create-or-update request: without `sha` it creates the path, with
      `sha` it replaces that exact revision. */
  datatype WriteRequest = WriteRequest(path: string, message: string, content: string, sha: Option<string>)

  /** The part of a successful write's answer the model keeps: the path and
      its new revision marker. */
  datatype Receipt = Receipt(path: string, sha: string)

  /** One request, as the store received it. */
  datatype Call = RepoCall | ListCall(dir: string) | GetCall(path: string) | PutCall(request: WriteRequest)

  datatype StoreState = StoreState(
    files: map<string, string>,     // path -> revision marker
    contents: map<string, string>,  // path -> content last written
    minted: nat,                    // revisions created so far
    calls: seq<Call>)               // every request received, in order

  const NotFound := 404
  const Conflict := 409
  const Unprocessable := 422
  const NotFoundMessage := "Not Found"
  const ShaMissingMessage := "\"sha\" wasn't supplied."
  const ShaMismatchMessage := "sha does not match"

  /** The marker of the n-th revision the store creates: never empty, and
      distinct revisions get distinct markers. */
  function MintSha(n: nat): (r: string)
    ensures |r| == n + 1
  {
    seq(n + 1, _ => 'f')
  }

  /** A folder exists when some file lies under it. */
  predicate IsFolder(files: map<string, string>, dir: string)
  {
    exists p :: p in files && dir + "/" <= p
  }

  /** The store accepts a write when it creates an absent path, or names the
      current revision of a present one. */
  predicate Accepts(files: map<string, string>, req: WriteRequest)
  {
    match req.sha
    case None => req.path !in files
    case Some(s) => req.path in files && files[req.path] == s
  }

  predicate ShasNonEmpty(files: map<string, string>)
  {
    forall p :: p in files ==> files[p] != ""
  }

  function Logged(st: StoreState, c: Call): StoreState
  {
    st.(calls := st.calls + [c])
  }

  /** The repository lookup: logged, and answered with the injected fault
      if there is one. */
  function FetchRepoStep(st: StoreState, fault: Fault): (StoreState, Reply<()>)
  {
    (Logged(st, RepoCall), if fault.Fails? then Err(fault.status, fault.message) else Ok(()))
  }

  /** A folder listing: logged, and answered with the injected fault, or
      else with success when a file lies under the folder and 404 otherwise. */
  function ListStep(st: StoreState, dir: string, fault: Fault): (StoreState, Reply<()>)
  {
    var reply :=
      if fault.Fails? then Err(fault.status, fault.message)
      else if IsFolder(st.files, dir) then Ok(())
      else Err(NotFound, NotFoundMessage);
    (Logged(st, ListCall(dir)), reply)
  }

  /** A file read: logged, and answered with the injected fault, or else
      with the path's revision marker, or 404 when it is absent. */
  function GetStep(st: StoreState, path: string, fault: Fault): (StoreState, Reply<string>)
  {
    var reply :=
      if fault.Fails? then Err(fault.status, fault.message)
      else if path in st.files then Ok(st.files[path])
      else Err(NotFound, NotFoundMessage);
    (Logged(st, GetCall(path)), reply)
  }

  /** A write succeeds exactly when it is healthy and the store accepts it;
      then the path gets a new revision and the written content, and
      otherwise no file changes. */
  function PutStep(st: StoreState, req: WriteRequest, fault: Fault): (r: (StoreState, Reply<Receipt>))
    ensures r.0.calls == st.calls + [PutCall(req)]
    ensures r.1.Ok? <==> fault.Healthy? && Accepts(st.files, req)
    ensures r.1.Ok? ==> r.0 == StoreState(st.files[req.path := MintSha(st.minted)],
                                          st.contents[req.path := req.content],
                                          st.minted + 1, r.0.calls)
                        && r.1.value == Receipt(req.path, MintSha(st.minted))
    ensures r.1.Err? ==> r.0 == Logged(st, PutCall(req))
    ensures fault.Fails? ==> r.1 == Err(fault.status, fault.message)
  {
    var logged := Logged(st, PutCall(req));
    if fault.Fails? then (logged, Err(fault.status, fault.message))
    else if req.sha.None? && req.path in st.files then (logged, Err(Unprocessable, ShaMissingMessage))
    else if !Accepts(st.files, req) then (logged, Err(Conflict, ShaMismatchMessage))
    else
      var sha := MintSha(st.minted);
      (StoreState(st.files[req.path := sha], st.contents[req.path := req.content], st.minted + 1, logged.calls),
       Ok(Receipt(req.path, sha)))
  }

  /** Writes keep every revision marker non-empty. */
  lemma PutKeepsShasNonEmpty(st: StoreState, req: WriteRequest, fault: Fault)
    requires ShasNonEmpty(st.files)
    ensures ShasNonEmpty(PutStep(st, req, fault).0.files)
  {
  }

  /** Reading changes nothing on the remote: the lookup, a listing and a file
      read keep every file, every content and the revision counter, and only
      add their own request to the log. */
  lemma ReadsChangeNoFile(st: StoreState, dir: string, path: string, fault: Fault)
    ensures var a := FetchRepoStep(st, fault).0;
            a.files == st.files && a.contents == st.contents && a.minted == st.minted
            && a.calls == st.calls + [RepoCall]
    ensures var b := ListStep(st, dir, fault).0;
            b.files == st.files && b.contents == st.contents && b.minted == st.minted
            && b.calls == st.calls + [ListCall(dir)]
    ensures var c := GetStep(st, path, fault).0;
            c.files == st.files && c.contents == st.contents && c.minted == st.minted
            && c.calls == st.calls + [GetCall(path)]
  {
  }

  /** What a read answers. An injected fault is passed through as it is, and
      without one the lookup succeeds; a listing succeeds only on a folder
      that holds a file, a read only on a present path and then with its
      current marker, and a healthy request that fails fails with 404. */
  lemma ReadReplies(st: StoreState, dir: string, path: string, fault: Fault)
    ensures FetchRepoStep(st, fault).1.Ok? <==> fault.Healthy?
    ensures fault.Fails? ==> && FetchRepoStep(st, fault).1 == Err(fault.status, fault.message)
                             && ListStep(st, dir, fault).1 == Err(fault.status, fault.message)
                             && GetStep(st, path, fault).1 == Err(fault.status, fault.message)
    ensures ListStep(st, dir, fault).1.Ok? <==> fault.Healthy? && IsFolder(st.files, dir)
    ensures GetStep(st, path, fault).1.Ok? <==> fault.Healthy? && path in st.files
    ensures GetStep(st, path, fault).1.Ok? ==> GetStep(st, path, fault).1.value == st.files[path]
    ensures fault.Healthy? && ListStep(st, dir, fault).1.Err? ==> ListStep(st, dir, fault).1 == Err(NotFound, NotFoundMessage)
    ensures fault.Healthy? && GetStep(st, path, fault).1.Err? ==> GetStep(st, path, fault).1 == Err(NotFound, NotFoundMessage)
  {
  }

  /** The store as an object: each request updates the fields in place, as
      the step function of that request describes. */
  class RemoteStore {
    var files: map<string, string>
    var contents: map<string, string>
    var minted: nat
    var calls: seq<Call>

    function State(): StoreState
      reads this
    {
      StoreState(files, contents, minted, calls)
    }

    constructor (files: map<string, string>, contents: map<string, string>)
      ensures State() == StoreState(files, contents, 0, [])
    {
      this.files := files;
      this.contents := contents;
      this.minted := 0;
      this.calls := [];
    }

    method FetchRepo(fault: Fault) returns (r: Reply<()>)
      modifies this
      ensures (State(), r) == FetchRepoStep(old(State()), fault)
    {
      calls := calls + [RepoCall];
      if fault.Fails? {
        r := Err(fault.status, fault.message);
      } else {
        r := Ok(());
      }
    }

    method ListFolder(dir: string, fault: Fault) returns (r: Reply<()>)
      modifies this
      ensures (State(), r) == ListStep(old(State()), dir, fault)
    {
      calls := calls + [ListCall(dir)];
      if fault.Fails? {
        r := Err(fault.status, fault.message);
      } else if exists p :: p in files && dir + "/" <= p {
        r := Ok(());
      } else {
        r := Err(NotFound, NotFoundMessage);
      }
    }

    method GetFile(path: string, fault: Fault) returns (r: Reply<string>)
      modifies this
      ensures (State(), r) == GetStep(old(State()), path, fault)
    {
      calls := calls + [GetCall(path)];
      if fault.Fails? {
        r := Err(fault.status, fault.message);
      } else if path in files {
        r := Ok(files[path]);
      } else {
        r := Err(NotFound, NotFoundMessage);
      }
    }

    method PutFile(req: WriteRequest, fault: Fault) returns (r: Reply<Receipt>)
      modifies this
      ensures (State(), r) == PutStep(old(State()), req, fault)
    {
      calls := calls + [PutCall(req)];
      if fault.Fails? {
        return Err(fault.status, fault.message);
      }
      match req.sha {
        case None =>
          if req.path in files {
            return Err(Unprocessable, ShaMissingMessage);
          }
        case Some(s) =>
          if req.path !in files || files[req.path] != s {
            return Err(Conflict, ShaMismatchMessage);
          }
      }
      var sha := MintSha(minted);
      files := files[req.path := sha];
      contents := contents[req.path := req.content];
      minted := minted + 1;
      r := Ok(Receipt(req.path, sha));
    }
  }
}
