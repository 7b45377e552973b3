/** The pure expressions of the publish route (app/api/publish/route.ts):
    how a draft title becomes a file name and a path, what the file holds
    before transport encoding, which commit message and revision marker a
    write carries, and the label a per-draft result is filed under. */
module Naming {
  import opened Text

  /** The folder the drafts are published into. */
  const DraftsDir := "drafts"
  /** The empty placeholder file that materialises the folder. */
  const KeepPath := "drafts/.gitkeep"
  /** The label of a result whose draft has no title at all. */
  const EmptyTitleLabel := "EMPTY_TITLE"
  const UpdatePrefix := "Update draft "
  const CreatePrefix := "Create draft "

  /** The characters a file name may keep: `[A-Za-z0-9-_]`. */
  predicate IsSafeChar(c: char)
  {
    ('a' <= c <= 'z') || ('A' <= c <= 'Z') || ('0' <= c <= '9') || c == '-' || c == '_'
  }

  predicate AllSafe(s: string)
  {
    forall i :: 0 <= i < |s| ==> IsSafeChar(s[i])
  }

  /** `title.replace(/[^a-zA-Z0-9-_]/g, "_")`, one character at a time
      (SanitizeChars says what it does to each). */
  function Sanitize(title: string): (r: string)
    ensures |r| == |title|
  {
    if title == [] then []
    else [if IsSafeChar(title[0]) then title[0] else '_'] + Sanitize(title[1..])
  }

  /** The path a draft is written to: `drafts/<safe>.md` (see DraftPathParts). */
  function DraftPath(title: string): string
  {
    DraftsDir + "/" + Sanitize(title) + ".md"
  }

  /** The file content before base64 encoding (see ContentParts). */
  function Content(title: string, body: string): string
  {
    "# " + title + "\n\n" + body
  }

  /** JavaScript truthiness of the looked-up revision marker: missing and
      empty markers are both false. */
  predicate IsTruthy(sha: Option<string>)
  {
    sha.Some? && sha.value != ""
  }

  /** `sha ? "Update draft <title>" : "Create draft <title>"` (see
      MessageAnnouncesMarker). */
  function CommitMessage(sha: Option<string>, title: string): string
  {
    if IsTruthy(sha) then UpdatePrefix + title else CreatePrefix + title
  }

  /** The `sha` field of the write, `...(sha && { sha })`: either the marker
      that was read or nothing, never an empty marker, and never nothing when
      a non-empty marker was read. */
  function ShaField(sha: Option<string>): (r: Option<string>)
    ensures r == sha || r.None?
    ensures r.Some? ==> r.value != ""
    ensures IsTruthy(sha) ==> r.Some?
  {
    if IsTruthy(sha) then sha else None
  }

  /** `!draft.title?.trim()`: the title is missing or blank. */
  predicate TitleBlank(title: Option<string>)
  {
    title.None? || IsBlank(title.value)
  }

  /** `draft.title || "EMPTY_TITLE"`: only a missing or empty title is
      replaced, and a title made of white space keeps its own text (see
      LabelIsTitleOrPlaceholder). */
  function Label(title: Option<string>): (r: string)
    ensures r != ""
  {
    if title.None? || title.value == "" then EmptyTitleLabel else title.value
  }

  // ---------------------------------------------------------------------
  // Properties

  /** Sanitising keeps the length of the title, keeps each safe character in
      place and turns every other one into `_`, so the result uses safe
      characters only. */
  lemma {:induction false} SanitizeChars(title: string)
    ensures var r := Sanitize(title);
            && (forall i :: 0 <= i < |title| && IsSafeChar(title[i]) ==> r[i] == title[i])
            && (forall i :: 0 <= i < |title| && !IsSafeChar(title[i]) ==> r[i] == '_')
            && AllSafe(r)
  {
    if title != [] {
      SanitizeChars(title[1..]);
      var r := Sanitize(title);
      assert r[1..] == Sanitize(title[1..]);
      forall i | 1 <= i < |title|
        ensures r[i] == Sanitize(title[1..])[i - 1] && title[i] == title[1..][i - 1]
      {
      }
    }
  }

  /** Sanitising twice is sanitising once. */
  lemma SanitizeIdempotent(title: string)
    ensures Sanitize(Sanitize(title)) == Sanitize(title)
  {
    SanitizeChars(title);
    SanitizeFixesSafe(Sanitize(title));
  }

  /** A string is left alone by sanitising exactly when it is already made of
      safe characters. */
  lemma SanitizeFixesSafe(s: string)
    ensures Sanitize(s) == s <==> AllSafe(s)
  {
    SanitizeChars(s);
    if AllSafe(s) {
      var r := Sanitize(s);
      assert forall i :: 0 <= i < |s| ==> r[i] == s[i];
    }
  }

  /** A draft path lies inside the drafts folder, ends in `.md`, and between
      the two holds the sanitised title, so it is ten characters longer than
      the title. */
  lemma DraftPathParts(title: string)
    ensures var r := DraftPath(title);
            && |r| == |title| + 10
            && r[..7] == DraftsDir + "/"
            && r[7..|r| - 3] == Sanitize(title)
            && r[|r| - 3..] == ".md"
  {
  }

  /** The content is a level-one heading holding the title, a blank line and
      the body, each at a fixed place, so title and body can be read back. */
  lemma ContentParts(title: string, body: string)
    ensures var r := Content(title, body);
            && |r| == |title| + |body| + 4
            && r[..2] == "# " && r[2..|title| + 2] == title
            && r[|title| + 2..|title| + 4] == "\n\n" && r[|title| + 4..] == body
  {
  }

  /** Two titles are written to the same path exactly when they sanitise to
      the same file name. */
  lemma {:induction false} SamePathIff(t1: string, t2: string)
    ensures DraftPath(t1) == DraftPath(t2) <==> Sanitize(t1) == Sanitize(t2)
  {
    var p1, p2 := DraftPath(t1), DraftPath(t2);
    DraftPathParts(t1);
    DraftPathParts(t2);
    if p1 == p2 {
      assert Sanitize(t1) == p1[7..|p1| - 3] == p2[7..|p2| - 3] == Sanitize(t2);
    }
  }

  /** Distinct titles can collide: "My Post" and "My_Post" share a path, so
      the later of the two overwrites the earlier. */
  lemma PathCollision()
    ensures "My Post" != "My_Post" && DraftPath("My Post") == DraftPath("My_Post")
  {
    MyPostPath();
    SanitizeFixesSafe("My_Post");
  }

  /** The title "My Post" is published at `drafts/My_Post.md`. */
  lemma MyPostPath()
    ensures Sanitize("My Post") == "My_Post"
    ensures DraftPath("My Post") == "drafts/My_Post.md"
  {
    assert Sanitize("My Post") == "My_Post";
    assert DraftPath("My Post") == DraftsDir + "/" + "My_Post" + ".md";
  }

  /** No draft is ever written over the folder placeholder. */
  lemma DraftPathIsNotKeepPath(title: string)
    ensures DraftPath(title) != KeepPath
  {
    DraftPathParts(title);
  }

  /** Every draft path lies inside the drafts folder. */
  lemma DraftPathInFolder(title: string)
    ensures DraftsDir + "/" <= DraftPath(title)
  {
    DraftPathParts(title);
  }

  /** Given the title, the content determines the body. */
  lemma ContentDeterminesBody(title: string, b1: string, b2: string)
    ensures Content(title, b1) == Content(title, b2) ==> b1 == b2
  {
    ContentParts(title, b1);
    ContentParts(title, b2);
  }

  /** The message announces an update exactly when the marker read is
      truthy, and a creation exactly when it is not. */
  lemma MessageAnnouncesMarker(sha: Option<string>, title: string)
    ensures CommitMessage(sha, title) == UpdatePrefix + title <==> IsTruthy(sha)
    ensures CommitMessage(sha, title) == CreatePrefix + title <==> !IsTruthy(sha)
  {
    assert (UpdatePrefix + title)[0] == 'U';
    assert (CreatePrefix + title)[0] == 'C';
  }

  /** The commit message and the `sha` field agree: the message announces an
      update exactly when the write carries a marker, and a creation exactly
      when it carries none. */
  lemma {:induction false} MessageMatchesShaField(sha: Option<string>, title: string)
    ensures CommitMessage(sha, title) == UpdatePrefix + title <==> ShaField(sha).Some?
    ensures CommitMessage(sha, title) == CreatePrefix + title <==> ShaField(sha).None?
  {
    assert (UpdatePrefix + title)[0] == 'U';
    assert (CreatePrefix + title)[0] == 'C';
  }

  /** A result is filed under its draft's own title or under the placeholder,
      and under the placeholder exactly when the title is missing, empty, or
      is itself the text "EMPTY_TITLE": the label cannot tell that title from
      a missing one. */
  lemma LabelIsTitleOrPlaceholder(title: Option<string>)
    ensures Label(title) == EmptyTitleLabel || title == Some(Label(title))
    ensures Label(title) == EmptyTitleLabel <==> title.None? || title.value == "" || title.value == EmptyTitleLabel
  {
  }

  /** A title that is not blank is not empty, so its result carries the title
      itself rather than the placeholder label. */
  lemma FilledTitleIsItsLabel(title: Option<string>)
    requires !TitleBlank(title)
    ensures Label(title) == title.value
  {
  }
}
