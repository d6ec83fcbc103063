/**
 * The process-wide state of the application: the `_db_ready` flag that makes
 * `startup` create the database once, the `items` table, and the upload
 * directory. SQLite and the filesystem are abstracted: the table is the
 * sequence of its rows in insertion order with the AUTOINCREMENT counter
 * beside it, and the upload directory is the set of stored names written to it.
 */
module Storage {
  import opened Wrappers
  import opened ItemCreation
  import opened PyStr

  /** A row of the `items` table: its AUTOINCREMENT id and the inserted columns. */
  datatype Item = Item(id: nat, row: NewRow)

  ghost predicate IdsAscending(items: seq<Item>) {
    forall i, j :: 0 <= i < j < |items| ==> items[i].id < items[j].id
  }

  ghost predicate IdsDescending(items: seq<Item>) {
    forall i, j :: 0 <= i < j < |items| ==> items[i].id > items[j].id
  }

  /** `SELECT ... ORDER BY id DESC` over a table whose rows are stored in
      ascending id order: the rows, last inserted first. */
  function NewestFirst(items: seq<Item>): (r: seq<Item>)
    ensures |r| == |items|
    ensures forall k :: 0 <= k < |items| ==> r[k] == items[|items| - 1 - k]
  {
    if items == [] then [] else NewestFirst(items[1..]) + [items[0]]
  }

  /** The listing holds every row exactly once. */
  lemma {:induction false} NewestFirstPermutes(items: seq<Item>)
    ensures multiset(NewestFirst(items)) == multiset(items)
    decreases |items|
  {
    if items != [] {
      NewestFirstPermutes(items[1..]);
      assert items == [items[0]] + items[1..];
    }
  }

  /** The listing holds every row exactly once, in strictly descending id
      order, as the query's ORDER BY promises. */
  lemma NewestFirstIsSortedPermutation(items: seq<Item>)
    requires IdsAscending(items)
    ensures IdsDescending(NewestFirst(items))
    ensures multiset(NewestFirst(items)) == multiset(items)
  {
    var r := NewestFirst(items);
    forall i, j | 0 <= i < j < |r|
      ensures r[i].id > r[j].id
    {
      assert r[i] == items[|items| - 1 - i] && r[j] == items[|items| - 1 - j];
    }
    NewestFirstPermutes(items);
  }

  /** The invariants of a stored table: ids ascend and never exceed the
      AUTOINCREMENT counter, every row has the shape that `create_item`
      guarantees (`WellFormed`), and every stored image path names a file in the upload directory. */
  ghost predicate TableOk(rows: seq<Item>, lastId: nat, uploads: set<string>) {
    && IdsAscending(rows)
    && (forall i :: 0 <= i < |rows| ==> 1 <= rows[i].id <= lastId)
    && (forall i :: 0 <= i < |rows| ==> WellFormed(rows[i].row))
    && (forall i :: 0 <= i < |rows| && rows[i].row.imagePath.Some? ==> rows[i].row.imagePath.value in uploads)
  }

  /** Saving more files keeps every stored path backed by a file. */
  lemma MoreUploadsKeepTableOk(rows: seq<Item>, lastId: nat, uploads: set<string>, more: set<string>)
    requires TableOk(rows, lastId, uploads)
    ensures TableOk(rows, lastId, uploads + more)
  {
  }

  /** Inserting a well-formed row under the next id, with its image already
      saved, keeps the table's invariants. */
  lemma InsertKeepsTableOk(rows: seq<Item>, lastId: nat, uploads: set<string>, row: NewRow)
    requires TableOk(rows, lastId, uploads)
    requires WellFormed(row)
    requires row.imagePath.Some? ==> row.imagePath.value in uploads
    ensures TableOk(rows + [Item(lastId + 1, row)], lastId + 1, uploads)
  {
    var rows' := rows + [Item(lastId + 1, row)];
    assert forall i :: 0 <= i < |rows| ==> rows'[i] == rows[i];
  }

  class App {
    /** `_db_ready`. */
    var dbReady: bool
    /** How many times `startup` has run `_init_db`. */
    ghost var initCalls: nat
    /** The data and upload directories and the `items` table exist. */
    var schemaReady: bool
    /** The `items` table, in insertion order. */
    var rows: seq<Item>
    /** The largest id the AUTOINCREMENT column has handed out. */
    var lastId: nat
    /** Names of the files written into the upload directory. */
    var uploads: set<string>

    /** `startup` has run `_init_db` exactly once when the flag is set and
        never before, and the stored table keeps its invariants. */
    ghost predicate Valid()
      reads this
    {
      && initCalls == (if dbReady then 1 else 0)
      && (dbReady ==> schemaReady)
      && TableOk(rows, lastId, uploads)
    }

    /** A freshly started process on an empty data directory. */
    constructor ()
      ensures Valid()
      ensures !dbReady && initCalls == 0 && !schemaReady
      ensures rows == [] && lastId == 0 && uploads == {}
    {
      dbReady := false;
      initCalls := 0;
      schemaReady := false;
      rows := [];
      lastId := 0;
      uploads := {};
    }

    /** `_init_db`: makes the directories and runs CREATE TABLE IF NOT EXISTS,
        which leaves an existing table and its rows as they are. */
    method InitDb()
      modifies this
      ensures schemaReady
      ensures initCalls == old(initCalls) + 1
      ensures dbReady == old(dbReady)
      ensures rows == old(rows) && lastId == old(lastId) && uploads == old(uploads)
    {
      schemaReady := true;
      initCalls := initCalls + 1;
    }

    /** `startup`, run by Flask before every request: the first call runs
        `_init_db` and sets the flag, every later call changes nothing. */
    method Startup()
      requires Valid()
      modifies this
      ensures Valid()
      ensures dbReady && schemaReady && initCalls == 1
      ensures old(dbReady) ==> unchanged(this)
      ensures !old(dbReady) ==> initCalls == old(initCalls) + 1
      ensures rows == old(rows) && lastId == old(lastId) && uploads == old(uploads)
    {
      if dbReady {
        return;
      }
      InitDb();
      dbReady := true;
    }

    /** `image.save(dest_path)`: a file under the stored name appears in the
        upload directory. */
    method SaveUpload(name: string)
      requires Valid()
      modifies this
      ensures Valid()
      ensures uploads == old(uploads) + {name}
      ensures rows == old(rows) && lastId == old(lastId)
      ensures dbReady == old(dbReady) && schemaReady == old(schemaReady) && initCalls == old(initCalls)
    {
      MoreUploadsKeepTableOk(rows, lastId, uploads, {name});
      uploads := uploads + {name};
    }

    /** The INSERT of `create_item`: the row is appended under the next
        AUTOINCREMENT id. The row has the shape `create_item` guarantees, and
        its image, if any, has been saved. */
    method InsertRow(row: NewRow) returns (id: nat)
      requires Valid() && dbReady
      requires WellFormed(row)
      requires row.imagePath.Some? ==> row.imagePath.value in uploads
      modifies this
      ensures Valid()
      ensures id == old(lastId) + 1 && lastId == id
      ensures rows == old(rows) + [Item(id, row)]
      ensures uploads == old(uploads)
      ensures dbReady == old(dbReady) && schemaReady == old(schemaReady) && initCalls == old(initCalls)
    {
      InsertKeepsTableOk(rows, lastId, uploads, row);
      lastId := lastId + 1;
      rows := rows + [Item(lastId, row)];
      id := lastId;
    }

    /** The side effects of `create_item` once it has decided: the accepted
        image is saved, then the row is inserted under the next id. */
    method Commit(e: Effects)
      requires Valid() && dbReady && Coherent(e)
      modifies this
      ensures Valid()
      ensures dbReady == old(dbReady) && schemaReady == old(schemaReady) && initCalls == old(initCalls)
      ensures uploads == old(uploads) + (if e.saved.Some? then {e.saved.value} else {})
      ensures lastId == old(lastId) + (if e.inserted.Some? then 1 else 0)
      ensures rows == old(rows) + (if e.inserted.Some? then [Item(lastId, e.inserted.value)] else [])
    {
      if e.saved.Some? {
        SaveUpload(e.saved.value);
      }
      if e.inserted.Some? {
        var _ := InsertRow(e.inserted.value);
      }
    }

    /** POST /items: `startup`, then `create_item`, which saves the accepted
        image and inserts the row under the next id. */
    method PostItem(form: Form, secure: string -> string, stamp: string, now: string)
      requires Valid()
      modifies this
      ensures Valid()
      ensures dbReady && initCalls == 1
      ensures var e := CreateItem(form, secure, stamp, now);
        && uploads == old(uploads) + (if e.saved.Some? then {e.saved.value} else {})
        && lastId == old(lastId) + (if e.inserted.Some? then 1 else 0)
        && rows == old(rows) + (if e.inserted.Some? then [Item(lastId, e.inserted.value)] else [])
    {
      Startup();
      var e := CreateItem(form, secure, stamp, now);
      Commit(e);
    }

    /** GET /: `startup`, then the listing for the page, newest first. */
    method Index() returns (items: seq<Item>)
      requires Valid()
      modifies this
      ensures Valid()
      ensures dbReady && initCalls == 1
      ensures rows == old(rows) && lastId == old(lastId) && uploads == old(uploads)
      ensures items == NewestFirst(rows)
      ensures IdsDescending(items) && multiset(items) == multiset(rows)
      ensures forall k :: 0 <= k < |items| ==> WellFormed(items[k].row)
    {
      Startup();
      items := NewestFirst(rows);
      NewestFirstIsSortedPermutation(rows);
    }
  }
}
