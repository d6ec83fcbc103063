# devpush-storage-test: a Dafny model of its request logic

The application is a one-table Flask/SQLite "storage test". A form submits a
title, an optional note and an optional image. Each submission becomes a row
of the `items` table, and the index page lists the rows newest first, with a
relative creation time. Everything it does is in `app.py`. This project models
the parts of that file that hold logic of their own:

- `datefmt` (module `RelativeTime`, file `relative_time.dfy`): it maps the
  elapsed seconds to one of six labels. A declarative description of the
  interval each label covers (`Describes`) is proved to hold of the filter's
  branch chain. The description is proved to admit exactly one label per
  elapsed time. The labels are proved to read back unambiguously below thirty
  days, and an older item is proved never to get a more recent label.
- The decision logic of `create_item` (module `ItemCreation`,
  `item_creation.dfy`). It strips the title and note, drops a blank title,
  turns a blank note into NULL, accepts an image by sanitised name and
  lower-cased extension, and names it `stamp + "-" + name`. It is a function
  from the form fields to the effects of the request: the file saved and the
  row inserted.
- The Python built-ins these rely on (module `PyStr`, `pystr.dfy`):
  `str.strip()` with Python's whitespace set, `str.lower()`, and `str(n)` with
  a round-trip proof. `os.path.splitext` on POSIX has its own module
  (`PosixPath`, `posixpath.dfy`), including the rule that leading dots do not
  start an extension.
- The process state (module `Storage`, `storage.dfy`), as class `App`. It has
  the `_db_ready` flag with a ghost count of the `_init_db` runs made by
  `startup`, and `startup` is proved to run `_init_db` exactly once. It also has an abstract `items` table
  (rows in insertion order, plus the AUTOINCREMENT counter) and the upload
  directory (a set of stored names). `PostItem` and `Index` are the two
  handlers, each preceded by `startup` as Flask's `before_request` does. The
  object invariant keeps these facts:
  - ids ascend;
  - every row has the shape `create_item` guarantees: a non-empty stripped
    title, a non-empty stripped note or NULL, and an image path that is NULL
    or carries an allowed extension;
  - every stored image path names a saved file.

  The listing is proved strictly descending by id and a permutation of the
  table.

Module `Wrappers` holds the `Option` type used for Python's `None`.

`datefmt` gives "yesterday" whenever the whole-day count is 1, that is for
86400 <= s < 172800 (app.py:30-32). So 25 hours gives "yesterday", not
"1d ago".

## Model

| member | source | states |
|---|---|---|
| `RelativeTime.Classify` | app.py:21-35 | the label chosen for `s` elapsed seconds is the one whose interval contains `s`: "just now" for any `s < 60` (negative included), minutes m with 1 <= m <= 59 and 60m <= s < 60(m+1), hours h in 1..23, "yesterday" for 86400 <= s < 172800, days d in 2..29, the date from 30 days on |
| `RelativeTime.DescribesUnique` | app.py:22-35 | no two labels cover the same elapsed time, so exactly one branch of the filter applies |
| `RelativeTime.ClassifyIsTheDescription` | app.py:22-35 | a label describes `s` if and only if it is the one the filter picks |
| `RelativeTime.DateFmtBuckets` | app.py:22-35 | the output text bucket by bucket, with the minute count in 1..59 and the hour count in 1..23 |
| `RelativeTime.Render` | app.py:23-34 | every relative label ("just now", "Nm ago", "Nh ago", "yesterday", "Nd ago") reads back as the age and count it was printed from, through a reader that refuses zero-padded counts; the dated label prints the formatted date. The exact text of each label is stated by `DateFmtBuckets` |
| `RelativeTime.DateFmt` | app.py:17-35 | below thirty days the text reads back as the label whose interval contains the elapsed time; from thirty days on it is the formatted date |
| `RelativeTime.ParseCount` | app.py:26-34 | a counted label reads back with its count and its unit letter |
| `RelativeTime.ParseRejectsPadding` | app.py:26 | "05m ago", a count `str(n)` never prints, reads back as no label |
| `RelativeTime.DateFmtDistinguishes` | app.py:22-34 | below thirty days, two elapsed times get the same text if and only if they fall in the same bucket with the same count |
| `RelativeTime.ClassifyMonotone` | app.py:22-35 | an item created earlier never gets a more recent label than one created later |
| `RelativeTime.DateFmtExamples` | app.py:22-35 | 45 s and -5 s give "just now", 25 h gives "yesterday", 40 days gives the formatted date |
| `PyStr.TrimLeft` | app.py:85-86 | removes exactly the longest whitespace prefix: the result is a suffix of the input, all removed characters are whitespace, and the result does not start with whitespace |
| `PyStr.TrimRight` | app.py:85-86 | removes exactly the longest whitespace suffix |
| `PyStr.Strip` | app.py:85-86 | the stripped text is empty exactly when the input is blank, and otherwise starts and ends with non-whitespace |
| `PyStr.StripSurrounded` | app.py:85-86 | stripping any blank prefix and blank suffix from a trimmed string gives back that string (strip keeps exactly the middle) |
| `PyStr.StripIdempotent` | app.py:85-86 | stripping twice is stripping once |
| `PyStr.Decimal` | app.py:26 | `str(n)`: non-empty, all decimal digits, no leading zero except for "0" |
| `PyStr.DecimalRoundTrip` | app.py:26 | reading back the printed digits gives the printed number |
| `PyStr.DecimalInjective` | app.py:29 | different counts print as different text |
| `PosixPath.RFind` | app.py:94 | the index of the last occurrence of a character, or -1 when there is none |
| `PosixPath.SplitExt` | app.py:94 | `splitext`: root and extension concatenate to the name; the extension is empty or one dot followed by no dot and no '/'; a non-empty extension follows a non-dot character of the last path component; and when the last dot lies after the last '/' with a non-dot character between them, the split is made at that dot |
| `PosixPath.Ext` | app.py:94 | the extension is a suffix of the name, empty or starting with a dot, and is everything from the last dot whenever that dot lies after the last '/' and is not a leading dot of the last component, and empty otherwise |
| `PyStr.Lower` | app.py:94 | the lowered text has the input's length and maps each character by itself: 'A'..'Z' to 'a'..'z', every other character unchanged |
| `PosixPath.ExtOfPrefixed` | app.py:94-97 | prefixing a name that has an extension keeps its extension, so `stamp + "-" + filename` has the extension of `filename` |
| `PosixPath.ExtExamples` | app.py:94 | "photo.PNG", "archive.tar.gz" and "a..png" have extensions ".PNG", ".gz" and ".png" |
| `PosixPath.NoExtExamples` | app.py:94 | ".png", "..png" and "dir.d/file" have no extension |
| `ItemCreation.NormaliseNote` | app.py:86 | the note is NULL exactly when the submitted note is absent or blank, and otherwise is the stripped submission, non-empty and without surrounding whitespace |
| `ItemCreation.NormaliseNoteIdempotent` | app.py:86 | normalising a normalised note changes nothing |
| `ItemCreation.OrEmpty` | app.py:85-86 | `form.get(...) or ""` is empty exactly when the field is absent or empty, and is the field's text when present |
| `ItemCreation.StoredName` | app.py:90-100 | an image is kept if and only if a part with a non-empty filename was sent, its sanitised name is non-empty, and its lower-cased extension is one of .png/.jpg/.jpeg/.gif/.webp/.svg; the stored name is then `stamp + "-" + name`, ends with the sanitised name and carries an allowed extension |
| `ItemCreation.CreateItem` | app.py:84-110 | nothing is inserted if and only if the title is absent or blank, and then nothing is saved either; an inserted row has the stripped title, the normalised note, the stored image name (which is exactly the file saved) and the creation time, and is well formed |
| `ItemCreation.BlankTitleDoesNothing` | app.py:85-88 | a blank title saves no file and inserts no row, whatever the note and image |
| `ItemCreation.TitleOnly` | app.py:85-110 | a title with no note and no image inserts one row with the stripped title, NULL note and NULL image path |
| `ItemCreation.DisallowedImageKeepsItem` | app.py:92-106 | an image with a disallowed extension is dropped while the item is still inserted |
| `Storage.NewestFirst` | app.py:76-79 | the listing has every row, the k-th being the k-th newest inserted |
| `Storage.NewestFirstPermutes` | app.py:78 | the listing has the same rows, with the same multiplicities, as the table |
| `Storage.NewestFirstIsSortedPermutation` | app.py:78 | over a table with ascending ids, the listing is in strictly descending id order and is a permutation of the table |
| `Storage.MoreUploadsKeepTableOk` | app.py:97-100 | saving more files keeps every stored image path backed by a file |
| `Storage.InsertKeepsTableOk` | app.py:103-108 | appending a well-formed row under the next id, with its image saved, keeps the table invariants |
| `Storage.App.constructor` | app.py:62 | a new process starts with `_db_ready` false, no `_init_db` run and an empty store |
| `Storage.App.InitDb` | app.py:44-59 | `_init_db` makes the schema exist, counts one run, and leaves existing rows, counter and files as they were |
| `Storage.App.Startup` | app.py:65-71 | after `startup` the flag is set and `startup` has run `_init_db` exactly once; a call with the flag already set changes nothing; the rows never change |
| `Storage.App.SaveUpload` | app.py:98-99 | saving adds the stored name to the upload directory and changes nothing else |
| `Storage.App.InsertRow` | app.py:103-108 | the INSERT appends the row under id `lastId + 1` and advances the counter |
| `Storage.App.Commit` | app.py:97-108 | the decided effects are applied: the saved name joins the upload directory, the row is appended under the next id, and nothing else changes |
| `Storage.App.PostItem` | app.py:83-110 | a POST adds exactly the saved file and the inserted row that `CreateItem` decides, the row under the next id, and keeps the invariants |
| `Storage.App.Index` | app.py:74-80 | a GET lists the unchanged table newest first, in strictly descending ids, as a permutation of the table, each row well formed |

## Left out

- HTTP routing, `redirect`, `render_template` and the HTML template: framework glue without logic of its own. The handlers return nothing; the redirect to `/` that follows every POST is not modelled.
- The `/uploads/<path:filename>` route (`send_from_directory`): file serving and its path-traversal rejection are Werkzeug's, whose code is not part of this model.
- `secure_filename`: a Werkzeug function, not part of this model; it is the parameter `secure`, about which nothing is assumed, so every property holds for any sanitiser.
- SQLite: connections, CREATE TABLE, INSERT and SELECT are abstracted as a sequence of rows with an AUTOINCREMENT counter. `ORDER BY id DESC` is modelled as the reverse of insertion order, which the invariant (ids ascend) makes the same order. A process that starts on a database left by an earlier run is not modelled: `App` starts on an empty store.
- Clock and calendar: `datetime.now`, `fromisoformat`, `int(total_seconds())` and `isoformat()` are not modelled. The filter receives the elapsed whole seconds; `create_item` receives the upload stamp and the creation time as text.
- `strftime("%b %d, %Y")`: the filter receives its output as the parameter `onDate`.
- Filesystem and server side effects: `mkdir`, `image.save` and `app.run`. Saving a file is recorded only as its name entering the set `uploads`.
- Failures: database or filesystem errors, and the orphaned file left when an INSERT fails after a save, are not modelled.
- Concurrency: requests are applied one at a time. Racing submissions and the process-wide flag under several threads are not modelled.
- `PyStr.Lower`: lowers ASCII letters only. This agrees with Python's `str.lower()` on every allowed extension, which is all the model compares it against. No non-ASCII character lowers to text made only of the ASCII letters that the allowed extensions use; `secure_filename` returns ASCII text in any case.
- The `_init_db` call in the `__main__` block (app.py:119): under `python app.py`, `_init_db` runs once there and once more in the first request's `startup`. The count in `App` covers the runs made by `startup` only. The second run does no harm, because `mkdir(exist_ok=True)` and `CREATE TABLE IF NOT EXISTS` leave existing directories and tables as they are.
