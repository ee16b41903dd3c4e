/** A single note (note.go): the record, its one-line print preview, its tag
    list and the decision taken after editing it in an external editor. */
module NoteRecord {
  import opened Wrappers
  import opened Text

  /** A `time.Time`, kept opaque: the model never reads its parts. */
  datatype Time = Time(ticks: int)

  /** Go's zero `time.Time`, which the program uses for "no due date". */
  const ZeroTime: Time := Time(0)

  /** One note. The revision of note.go this model follows declares no `Tags`
      field although notes.go and main.go use one; it is given here as an
      ordered list of strings. */
  datatype Note = Note(
    id: nat,
    content: string,
    priority: nat,
    done: bool,
    created: Time,
    updated: Time,
    due: Time,
    tags: seq<string>)

  /** Go's zero `Note{}`: what a composite literal leaves in unnamed fields. */
  const BlankNote: Note := Note(0, "", 0, false, ZeroTime, ZeroTime, ZeroTime, [])

  // ---------------------------------------------------------------------------
  // Title preview
  // ---------------------------------------------------------------------------

  /** A preview cut to `keep` characters with "..." appended when it is
      longer than `keep`. */
  function Abbreviate(s: string, keep: nat): (r: string)
    ensures |r| <= keep + 3
    ensures |s| <= keep ==> r == s
    ensures |s| > keep ==> |r| == keep + 3 && r[..keep] == s[..keep] && r[keep..] == "..."
  {
    if |s| > keep then s[..keep] + "..." else s
  }

  /** Abbreviating an abbreviation changes nothing. */
  lemma AbbreviateIdempotent(s: string, keep: nat)
    ensures Abbreviate(Abbreviate(s, keep), keep) == Abbreviate(s, keep)
  {
  }

  /** The title preview of a note's content: its first line, abbreviated. */
  function Preview(content: string, keep: nat): (r: string)
    ensures '\n' !in r
    ensures |r| <= keep + 3
    ensures |FirstLine(content)| <= keep ==> r == FirstLine(content)
    ensures |FirstLine(content)| > keep ==> r == FirstLine(content)[..keep] + "..."
    ensures |r| >= keep ==> r[..keep] == content[..keep]
  {
    Abbreviate(FirstLine(content), keep)
  }

  /** The marker `Note.Print` and the table printer show for the done flag. */
  function DoneMarker(done: bool): (r: string)
    ensures |r| == 3 && r[0] == '[' && r[2] == ']'
    ensures done <==> r[1] == 'x'
  {
    if done then "[x]" else "[ ]"
  }

  /** A piece of printed text: literal characters, or a time rendered with a
      Go layout string (the rendering itself is not modelled). */
  datatype Piece = Lit(text: string) | Stamp(at: Time, layout: string)

  const PrintPreviewLength: nat := 30
  const PrintTimeLayout: string := "2006-01-02 15:04"

  /** `Note.Print`: id, done marker, title preview (first line, cut at 30
      characters), priority and creation time on one line. */
  function Print(n: Note): (r: seq<Piece>)
    ensures |r| == 2 && r[0].Lit? && r[1] == Stamp(n.created, PrintTimeLayout)
    ensures '\n' !in r[0].text
    ensures Decimal(n.id) + " " + DoneMarker(n.done) + " " <= r[0].text
    ensures var title := FirstLine(n.content);
            r[0].text == Decimal(n.id) + " " + DoneMarker(n.done) + " "
                         + (if |title| > PrintPreviewLength then title[..PrintPreviewLength] + "..." else title)
                         + "\t" + Decimal(n.priority) + "\t"
  {
    var head := Decimal(n.id) + " " + DoneMarker(n.done) + " ";
    var title := FirstLine(n.content);
    var preview := Preview(n.content, PrintPreviewLength);
    assert preview == if |title| > PrintPreviewLength then title[..PrintPreviewLength] + "..." else title;
    var line := head + preview + "\t" + Decimal(n.priority) + "\t";
    PrintLineFacts(n, preview, line);
    [Lit(line), Stamp(n.created, PrintTimeLayout)]
  }

  /** The line `Note.Print` writes before the time holds no newline and
      starts with the id and done marker. */
  lemma PrintLineFacts(n: Note, preview: string, line: string)
    requires '\n' !in preview
    requires line == Decimal(n.id) + " " + DoneMarker(n.done) + " " + preview + "\t" + Decimal(n.priority) + "\t"
    ensures '\n' !in line
    ensures Decimal(n.id) + " " + DoneMarker(n.done) + " " <= line
  {
    var head := Decimal(n.id) + " " + DoneMarker(n.done) + " ";
    assert '\n' !in DoneMarker(n.done) by {
      assert DoneMarker(n.done) == "[x]" || DoneMarker(n.done) == "[ ]";
    }
    assert line == head + (preview + "\t" + Decimal(n.priority) + "\t");
  }

  /** The title part of `Note.Print` is the note's first line whenever that
      line has at most 30 characters. */
  lemma PrintShowsShortTitle(n: Note)
    requires |FirstLine(n.content)| <= PrintPreviewLength
    ensures Print(n)[0].text
         == Decimal(n.id) + " " + DoneMarker(n.done) + " " + FirstLine(n.content)
            + "\t" + Decimal(n.priority) + "\t"
  {
  }

  // ---------------------------------------------------------------------------
  // Tags
  // ---------------------------------------------------------------------------

  /** `Note.AddTag` (its body is not part of this revision): adds `tag` unless
      the note already has it; the flag says whether anything was added. */
  function AddTag(n: Note, tag: string): (r: (bool, Note))
    ensures r.0 <==> tag !in n.tags
    ensures !r.0 ==> r.1 == n
    ensures r.0 ==> r.1.tags == n.tags + [tag]
    ensures tag in r.1.tags
    ensures n.tags <= r.1.tags
    ensures r.1 == n.(tags := r.1.tags)
    ensures forall t :: t in r.1.tags ==> t in n.tags || t == tag
  {
    if tag in n.tags then (false, n) else (true, n.(tags := n.tags + [tag]))
  }

  /** Every element of `tags` except those equal to `tag`, in order. */
  function Without(tags: seq<string>, tag: string): (r: seq<string>)
    ensures tag !in r
    ensures forall t :: t in r <==> t in tags && t != tag
    ensures tag !in tags ==> r == tags
  {
    if tags == [] then []
    else (if tags[0] == tag then [] else [tags[0]]) + Without(tags[1..], tag)
  }

  /** `Note.RemoveTag` (its body is not part of this revision): removes `tag`;
      the flag says whether the note had it. */
  function RemoveTag(n: Note, tag: string): (r: (bool, Note))
    ensures r.0 <==> tag in n.tags
    ensures !r.0 ==> r.1 == n
    ensures tag !in r.1.tags
    ensures forall t :: t in r.1.tags <==> t in n.tags && t != tag
    ensures r.1 == n.(tags := r.1.tags)
  {
    if tag in n.tags then (true, n.(tags := Without(n.tags, tag))) else (false, n)
  }

  /** `Note.ClearTags` (its body is not part of this revision). */
  function ClearTags(n: Note): (r: Note)
    ensures r.tags == []
    ensures r == n.(tags := [])
  {
    n.(tags := [])
  }

  /** Adding a tag and then removing it leaves a note that had not had the tag
      as it was. */
  lemma AddThenRemoveTag(n: Note, tag: string)
    requires tag !in n.tags
    ensures RemoveTag(AddTag(n, tag).1, tag) == (true, n)
  {
    WithoutAppended(n.tags, tag);
  }

  lemma {:induction false} WithoutAppended(tags: seq<string>, tag: string)
    requires tag !in tags
    ensures Without(tags + [tag], tag) == tags
  {
    if tags == [] {
    } else {
      assert (tags + [tag])[1..] == tags[1..] + [tag];
      WithoutAppended(tags[1..], tag);
      assert [tags[0]] + tags[1..] == tags;
    }
  }

  // ---------------------------------------------------------------------------
  // Editing in $EDITOR
  // ---------------------------------------------------------------------------

  /** What running the editor on the note's temporary file came to: a failure
      somewhere along the way (temp file, process start, wait, read back), or
      the file's contents once the editor exited. */
  datatype EditorRun = EditorFailed(reason: string) | EditorSaved(text: string)

  const NoEditorMessage: string := "You don't have EDITOR variable set!"

  /** `Note.EditInEditor`. The editor process, the temporary file and the
      clock are parameters: `editorSet` says whether $EDITOR exists, `run` what
      the editor left behind, `digest` stands for the MD5 hex digest and `now`
      for `time.Now()`. On success the flag says whether the content digest
      changed. */
  function EditInEditor(n: Note, editorSet: bool, run: EditorRun, digest: string -> string, now: Time)
    : (r: Result<(bool, Note)>)
    ensures !editorSet ==> r == Err(NoEditorMessage)
    ensures editorSet && run.EditorFailed? ==> r == Err(run.reason)
    ensures r.Ok? ==> editorSet && run.EditorSaved? && r.value.1.content == run.text
    ensures r.Ok? ==> (r.value.0 <==> digest(n.content) != digest(run.text))
    ensures r.Ok? && r.value.0 ==> r.value.1 == n.(content := run.text, updated := now)
    ensures r.Ok? && !r.value.0 ==> r.value.1 == n.(content := run.text)
  {
    if !editorSet then Err(NoEditorMessage)
    else
      match run
      case EditorFailed(reason) => Err(reason)
      case EditorSaved(text) =>
        var edited := n.(content := text);
        if digest(n.content) != digest(text) then Ok((true, edited.(updated := now)))
        else Ok((false, edited))
  }

  /** Leaving the file as it was never counts as an update, and the note is
      then left exactly as it was. */
  lemma UnchangedEditIsNoUpdate(n: Note, digest: string -> string, now: Time)
    ensures EditInEditor(n, true, EditorSaved(n.content), digest, now) == Ok((false, n))
  {
  }

  /** With a digest that tells texts apart, an edit counts as an update exactly
      when the text changed. */
  lemma EditUpdatesIffChanged(n: Note, text: string, digest: string -> string, now: Time)
    requires forall a, b :: digest(a) == digest(b) ==> a == b
    ensures EditInEditor(n, true, EditorSaved(text), digest, now).value.0 <==> text != n.content
  {
  }
}
