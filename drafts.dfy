/** The local draft collection of the editor (hooks/useDrafts.ts). Each
    operation of the hook is a state updater `prev => next` over the array
    of drafts; here each is a function from the old sequence to the new one.
    The identifier and the creation time, which the hook takes from the
    clock, are parameters. */
module Drafts {
  import opened Text

  /** A locally authored draft; `createdAt` is its creation time in milliseconds. */
  datatype Draft = Draft(id: string, title: string, body: string, createdAt: int)

  /** What `addDraft` insists on: neither the title nor the body is blank. */
  predicate Filled(d: Draft)
  {
    !IsBlank(d.title) && !IsBlank(d.body)
  }

  predicate AllFilled(ds: seq<Draft>)
  {
    forall i :: 0 <= i < |ds| ==> Filled(ds[i])
  }

  predicate HasId(ds: seq<Draft>, id: string)
  {
    exists i :: 0 <= i < |ds| && ds[i].id == id
  }

  /** `addDraft(title, body)`: a blank title or body leaves the collection as
      it is; otherwise exactly one new draft is appended after the old ones. */
  function AddDraft(ds: seq<Draft>, id: string, title: string, body: string, now: int): (r: seq<Draft>)
    ensures IsBlank(title) || IsBlank(body) ==> r == ds
    ensures !IsBlank(title) && !IsBlank(body) ==>
              |r| == |ds| + 1 && r[..|ds|] == ds && r[|ds|] == Draft(id, title, body, now)
  {
    if IsBlank(title) || IsBlank(body) then ds else ds + [Draft(id, title, body, now)]
  }

  /** The draft `d` edited by `updateDraft`: the title and body are replaced
      when the id matches, and nothing else changes. */
  function Edit(d: Draft, id: string, title: string, body: string): Draft
  {
    if d.id == id then d.(title := title, body := body) else d
  }

  /** `updateDraft(id, title, body)`: the same drafts in the same order, each
      keeping its id and creation time; those with the id get the new title
      and body, every other draft is left as it was. Blank text is accepted. */
  function UpdateDraft(ds: seq<Draft>, id: string, title: string, body: string): (r: seq<Draft>)
    ensures |r| == |ds|
    ensures forall i :: 0 <= i < |ds| ==> r[i].id == ds[i].id && r[i].createdAt == ds[i].createdAt
    ensures forall i :: 0 <= i < |ds| && ds[i].id == id ==> r[i].title == title && r[i].body == body
    ensures forall i :: 0 <= i < |ds| && ds[i].id != id ==> r[i] == ds[i]
  {
    if ds == [] then [] else [Edit(ds[0], id, title, body)] + UpdateDraft(ds[1..], id, title, body)
  }

  /** `deleteDraft(id)`: the collection does not grow (DeleteRemovesId,
      DeleteCounts and DeleteAppend say which drafts are kept, how often and
      in what order). */
  function DeleteDraft(ds: seq<Draft>, id: string): (r: seq<Draft>)
    ensures |r| <= |ds|
  {
    if ds == [] then []
    else if ds[0].id == id then DeleteDraft(ds[1..], id)
    else [ds[0]] + DeleteDraft(ds[1..], id)
  }

  /** `clearAllDrafts()`: the collection becomes empty, whatever it held. */
  function ClearAllDrafts(ds: seq<Draft>): (r: seq<Draft>)
    ensures |r| == 0
  {
    []
  }

  // ---------------------------------------------------------------------
  // addDraft

  /** Adding never breaks the rule that every held draft is filled in. */
  lemma AddKeepsFilled(ds: seq<Draft>, id: string, title: string, body: string, now: int)
    requires AllFilled(ds)
    ensures AllFilled(AddDraft(ds, id, title, body, now))
  {
  }

  /** Adding a draft under an id nobody holds and then deleting that id
      gives back the collection as it was. */
  lemma {:induction false} AddThenDelete(ds: seq<Draft>, id: string, title: string, body: string, now: int)
    requires !HasId(ds, id)
    ensures DeleteDraft(AddDraft(ds, id, title, body, now), id) == ds
  {
    DeleteAbsent(ds, id);
    if !IsBlank(title) && !IsBlank(body) {
      DeleteAppend(ds, [Draft(id, title, body, now)], id);
    }
  }

  // ---------------------------------------------------------------------
  // updateDraft

  /** Updating an id nobody holds changes nothing. */
  lemma {:induction false} UpdateAbsent(ds: seq<Draft>, id: string, title: string, body: string)
    requires !HasId(ds, id)
    ensures UpdateDraft(ds, id, title, body) == ds
  {
    var r := UpdateDraft(ds, id, title, body);
    forall i | 0 <= i < |ds|
      ensures r[i] == ds[i]
    {
      assert ds[i].id != id;
    }
  }

  /** Updating twice with the same text is the same as updating once. */
  lemma {:induction false} UpdateIdempotent(ds: seq<Draft>, id: string, title: string, body: string)
    ensures UpdateDraft(UpdateDraft(ds, id, title, body), id, title, body) == UpdateDraft(ds, id, title, body)
  {
    var r := UpdateDraft(ds, id, title, body);
    var rr := UpdateDraft(r, id, title, body);
    forall i | 0 <= i < |ds|
      ensures rr[i] == r[i]
    {
      if ds[i].id == id {
        assert rr[i] == ds[i].(title := title, body := body);
      }
    }
  }

  /** Deleting after an update of the same id removes the edited drafts just
      as it would have removed the originals. */
  lemma {:induction false} UpdateThenDelete(ds: seq<Draft>, id: string, title: string, body: string)
    ensures DeleteDraft(UpdateDraft(ds, id, title, body), id) == DeleteDraft(ds, id)
  {
    if ds != [] {
      UpdateThenDelete(ds[1..], id, title, body);
      assert UpdateDraft(ds, id, title, body)[1..] == UpdateDraft(ds[1..], id, title, body);
    }
  }

  /** Unlike adding, updating accepts blank text: a collection of filled
      drafts can be left holding a blank one. */
  lemma UpdateAcceptsBlank()
    ensures var ds := [Draft("1", "Title", "Body", 0)];
            AllFilled(ds) && !AllFilled(UpdateDraft(ds, "1", "", ""))
  {
    var ds := [Draft("1", "Title", "Body", 0)];
    VisibleStartNotBlank("Title");
    VisibleStartNotBlank("Body");
    assert UpdateDraft(ds, "1", "", "")[0].title == "";
  }

  // ---------------------------------------------------------------------
  // deleteDraft

  /** Deletion works piecewise on a concatenation: the kept drafts keep their
      relative order. */
  lemma {:induction false} DeleteAppend(a: seq<Draft>, b: seq<Draft>, id: string)
    ensures DeleteDraft(a + b, id) == DeleteDraft(a, id) + DeleteDraft(b, id)
  {
    if a == [] {
      assert a + b == b;
    } else {
      var x, tail := a[0], a[1..];
      assert a + b == [x] + (tail + b) by {
        assert a == [x] + tail;
      }
      DeleteCons(x, tail + b, id);
      DeleteAppend(tail, b, id);
      DeleteCons(x, tail, id);
      assert a == [x] + tail;
      if x.id != id {
        calc {
          DeleteDraft(a + b, id);
          [x] + DeleteDraft(tail + b, id);
          [x] + (DeleteDraft(tail, id) + DeleteDraft(b, id));
          ([x] + DeleteDraft(tail, id)) + DeleteDraft(b, id);
        }
      }
    }
  }

  /** One step of the filter: the head is kept exactly when its id differs. */
  lemma DeleteCons(x: Draft, s: seq<Draft>, id: string)
    ensures DeleteDraft([x] + s, id) == if x.id == id then DeleteDraft(s, id) else [x] + DeleteDraft(s, id)
  {
    assert ([x] + s)[1..] == s;
  }

  /** Deleting an id nobody holds changes nothing. */
  lemma {:induction false} DeleteAbsent(ds: seq<Draft>, id: string)
    requires !HasId(ds, id)
    ensures DeleteDraft(ds, id) == ds
  {
    if ds != [] {
      assert ds[0].id != id;
      assert !HasId(ds[1..], id) by {
        forall i | 0 <= i < |ds[1..]| ensures ds[1..][i].id != id {
          assert ds[1..][i] == ds[i + 1];
        }
      }
      DeleteAbsent(ds[1..], id);
    }
  }

  /** Deletion keeps exactly the drafts with another id, each as often as it
      occurred before, and removes every occurrence of the id. */
  lemma {:induction false} DeleteCounts(ds: seq<Draft>, id: string, d: Draft)
    ensures multiset(DeleteDraft(ds, id))[d] == if d.id == id then 0 else multiset(ds)[d]
  {
    if ds != [] {
      DeleteCounts(ds[1..], id, d);
      assert ds == [ds[0]] + ds[1..];
      assert multiset(ds) == multiset([ds[0]]) + multiset(ds[1..]);
    }
  }

  /** No draft with the id is left after deleting it. */
  lemma DeleteRemovesId(ds: seq<Draft>, id: string)
    ensures forall i :: 0 <= i < |DeleteDraft(ds, id)| ==> DeleteDraft(ds, id)[i].id != id
  {
    var r := DeleteDraft(ds, id);
    forall i | 0 <= i < |r| ensures r[i].id != id {
      DeleteCounts(ds, id, r[i]);
      assert r[i] in multiset(r);
    }
  }

  /** Deleting twice is the same as deleting once. */
  lemma DeleteIdempotent(ds: seq<Draft>, id: string)
    ensures DeleteDraft(DeleteDraft(ds, id), id) == DeleteDraft(ds, id)
  {
    DeleteRemovesId(ds, id);
    DeleteAbsent(DeleteDraft(ds, id), id);
  }

  /** Deleting never breaks the rule that every held draft is filled in. */
  lemma DeleteKeepsFilled(ds: seq<Draft>, id: string)
    requires AllFilled(ds)
    ensures AllFilled(DeleteDraft(ds, id))
  {
    var r := DeleteDraft(ds, id);
    forall i | 0 <= i < |r| ensures Filled(r[i]) {
      DeleteCounts(ds, id, r[i]);
      assert r[i] in multiset(r);
      assert r[i] in multiset(ds);
      var j :| 0 <= j < |ds| && ds[j] == r[i];
    }
  }
}
