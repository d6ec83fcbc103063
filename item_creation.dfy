/**
 * The decisions `create_item` takes on one POST /items submission: the
 * title and note are stripped, a blank title drops the whole submission, a
 * blank note is stored as NULL, and an attached image is kept only when its
 * sanitised name is non-empty and carries an allowed extension, in which case
 * it is saved as `stamp + "-" + name`.
 *
 * Werkzeug's `secure_filename` is not part of this model: it is the
 * parameter `secure`, about which nothing is assumed. The upload stamp
 * (`%Y%m%d%H%M%S%f` of the current time) and the creation time
 * (`isoformat()` of the current time) are the parameters `stamp` and `now`.
 */
module ItemCreation {
  import opened Wrappers
  import opened PyStr
  import opened PosixPath

  /** The image extensions an upload may have, compared in lower case. */
  const AllowedExt: set<string> := {".png", ".jpg", ".jpeg", ".gif", ".webp", ".svg"}

  /** The file part of the form. Flask may hand over a part whose filename is
      missing or empty (the browser's "no file chosen"); such a part is falsy. */
  datatype Upload = Upload(filename: Option<string>)

  /** The form fields `title`, `note` and `image`, each possibly absent. */
  datatype Form = Form(title: Option<string>, note: Option<string>, image: Option<Upload>)

  /** The values bound to the INSERT statement. */
  datatype NewRow = NewRow(title: string, note: Option<string>, imagePath: Option<string>, createdAt: string)

  /** What one submission does: the name of the file it writes into the
      upload directory, and the row it inserts. */
  datatype Effects = Effects(saved: Option<string>, inserted: Option<NewRow>)

  /** `request.form.get(name) or ""`: an absent field and an empty one read
      the same, and a present field reads as its text. */
  function OrEmpty(field: Option<string>): (r: string)
    ensures r == [] <==> (field == None || field == Some([]))
    ensures field.Some? ==> r == field.value
  {
    if field.Some? then field.value else ""
  }

  /** `(field or "").strip() or None`. */
  function NormaliseNote(field: Option<string>): (r: Option<string>)
    ensures r.None? <==> Blank(OrEmpty(field))
    ensures r.Some? ==> r.value == Strip(OrEmpty(field))
    ensures r.Some? ==> r.value != [] && Trimmed(r.value)
  {
    var note := Strip(OrEmpty(field));
    if note == [] then None else Some(note)
  }

  /** A sanitised name that the upload step accepts. */
  predicate Acceptable(filename: string) {
    filename != [] && Lower(Ext(filename)) in AllowedExt
  }

  /** The guarded branch of `create_item`: the stored name of the attached
      image, or None when no image is kept. An image is kept exactly when a
      part with a filename was sent and its sanitised name is acceptable; the
      stored name then ends with the sanitised name after the stamp and a
      dash, and itself carries an allowed extension. */
  function StoredName(image: Option<Upload>, secure: string -> string, stamp: string): (r: Option<string>)
    ensures r.Some? <==> (image.Some? && OrEmpty(image.value.filename) != [] && Acceptable(secure(image.value.filename.value)))
    ensures r.Some? ==>
      var name := secure(image.value.filename.value);
      && r.value == stamp + "-" + name
      && r.value[|stamp| + 1..] == name
      && Lower(Ext(r.value)) in AllowedExt
  {
    if image.Some? && image.value.filename.Some? && image.value.filename.value != [] then
      var filename := secure(image.value.filename.value);
      var ext := Lower(Ext(filename));
      if filename != [] && ext in AllowedExt then
        assert (stamp + "-") + filename == stamp + "-" + filename;
        ExtOfPrefixed(stamp + "-", filename);
        Some(stamp + "-" + filename)
      else
        None
    else
      None
  }

  /** The columns of any row that `create_item` inserts. */
  ghost predicate WellFormed(row: NewRow) {
    && row.title != [] && Trimmed(row.title)
    && (row.note.Some? ==> row.note.value != [] && Trimmed(row.note.value))
    && (row.imagePath.Some? ==> Lower(Ext(row.imagePath.value)) in AllowedExt)
  }

  /** What any submission's effects satisfy: a file is saved only for an
      inserted row, it is the row's image path, and the row is well formed. */
  ghost predicate Coherent(e: Effects) {
    && (e.inserted.None? ==> e.saved.None?)
    && (e.inserted.Some? ==> e.saved == e.inserted.value.imagePath && WellFormed(e.inserted.value))
  }

  /** `create_item` on one submission. */
  function CreateItem(form: Form, secure: string -> string, stamp: string, now: string): (r: Effects)
    ensures r.inserted.None? <==> Blank(OrEmpty(form.title))
    ensures r.inserted.None? ==> r.saved.None?
    ensures r.inserted.Some? ==>
      && r.saved == r.inserted.value.imagePath
      && r.inserted.value.title == Strip(OrEmpty(form.title))
      && r.inserted.value.note == NormaliseNote(form.note)
      && r.inserted.value.imagePath == StoredName(form.image, secure, stamp)
      && r.inserted.value.createdAt == now
      && WellFormed(r.inserted.value)
    ensures Coherent(r)
  {
    var title := Strip(OrEmpty(form.title));
    var note := NormaliseNote(form.note);
    if title == [] then
      Effects(None, None)
    else
      var imagePath := StoredName(form.image, secure, stamp);
      Effects(imagePath, Some(NewRow(title, note, imagePath, now)))
  }

  /** A blank title drops the submission whatever the note and the image:
      nothing is saved and nothing is inserted. */
  lemma BlankTitleDoesNothing(form: Form, secure: string -> string, stamp: string, now: string)
    requires Blank(OrEmpty(form.title))
    ensures CreateItem(form, secure, stamp, now) == Effects(None, None)
  {
  }

  /** A title with no note and no image inserts exactly that title, stripped,
      with NULL note and NULL image path. */
  lemma TitleOnly(title: string, secure: string -> string, stamp: string, now: string)
    requires !Blank(title)
    ensures CreateItem(Form(Some(title), None, None), secure, stamp, now)
         == Effects(None, Some(NewRow(Strip(title), None, None, now)))
  {
  }

  /** A disallowed extension drops only the image; the item is still inserted. */
  lemma DisallowedImageKeepsItem(form: Form, secure: string -> string, stamp: string, now: string)
    requires !Blank(OrEmpty(form.title))
    requires form.image.Some? && form.image.value.filename.Some?
    requires Lower(Ext(secure(form.image.value.filename.value))) !in AllowedExt
    ensures var r := CreateItem(form, secure, stamp, now);
      r.inserted.Some? && r.inserted.value.imagePath.None? && r.saved.None?
  {
  }

  /** Normalising an already normalised note changes nothing. */
  lemma NormaliseNoteIdempotent(field: Option<string>)
    ensures NormaliseNote(NormaliseNote(field)) == NormaliseNote(field)
  {
    StripIdempotent(OrEmpty(field));
  }
}
