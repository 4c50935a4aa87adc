/**
  The CRUD handlers of teachers.go and students.go over an abstract table.

  The SQL table is a map from ID to row plus an auto-increment counter; a row
  is the entity struct with its ID field equal to its key. The two files run
  the same code; what differs is whether each SQL statement agrees with its
  Go bindings, recorded in a `Binding`. Storage failures the driver may report
  (Begin, Prepare, the n-th single-row SELECT, the n-th Exec, Commit) are an
  input, `Faults`.

  A transaction is the map the loop writes in place of the table: Commit
  assigns it to the table, Rollback (every early return) drops it.
*/
module EntityTable {
  import opened Wrappers
  import opened Values
  import opened Strconv
  import opened Merge

  /** Handler outcomes, grouped by the kind of failure. */
  datatype Error =
    | InvalidId            // "Invalid Teacher ID": the path ID, or a bulk "id" that is not a JSON string
    | NotFound             // "Teacher not found"
    | Internal             // "Error updating/adding/deleting/retrieving data"
    | MergeRefused         // bulk: "Cannot convert" and rollback, or a panic; single: a panic
    | UnacceptableFields   // "Unacceptable fields found in request"
    | InvalidBody          // CheckBlankFields failed
    | IdDoesNotExist(id: int)
    | IdsDoNotExist

  datatype Result<T> = Ok(value: T) | Err(error: Error)

  datatype Status = Done | Failed(error: Error)

  /**
    Whether the handler's SQL agrees with its Go code: `scanMatchesSelect` when
    every single-row SELECT scans as many destinations as it lists columns,
    `updateArgsMatch` when every UPDATE passes as many arguments as it has
    placeholders.
  */
  datatype Binding = Binding(scanMatchesSelect: bool, updateArgsMatch: bool)

  /**
    Failures reported by the storage driver: Begin, Prepare, the single-row
    SELECTs and the Exec calls (each numbered from 0 within a request), Commit.
  */
  datatype Faults = Faults(begin: bool, prepare: bool, query: set<nat>, exec: set<nat>, commit: bool)

  const NoFaults := Faults(false, false, {}, {}, false)

  type Rows = map<int, Entity>

  /** Every row is a value of the struct type and carries its key as its ID. */
  predicate TableOk(s: Schema, rows: Rows)
    requires SchemaOk(s)
  {
    forall id :: id in rows ==> Fits(s, rows[id]) && rows[id][0] == CInt(id)
  }

  lemma StoreKeepsTableOk(s: Schema, rows: Rows, e: Entity)
    requires SchemaOk(s) && TableOk(s, rows) && Fits(s, e)
    ensures TableOk(s, rows[IdOf(e) := e])
  {
  }

  /**
    `SELECT id, ... WHERE id = ?` followed by `Scan`, where `fault` is a driver
    error of the query itself. Scan reports a missing row (sql.ErrNoRows)
    before it looks at its destinations.
  */
  function ReadRow(b: Binding, rows: Rows, id: int, fault: bool): (r: Result<Entity>)
    ensures r.Ok? <==> !fault && id in rows && b.scanMatchesSelect
    ensures r.Ok? ==> r.value == rows[id]
    ensures r.Err? && !fault && id !in rows ==> r.error == NotFound
    ensures r.Err? && (fault || id in rows) ==> r.error == Internal
  {
    if fault then Err(Internal)
    else if id !in rows then Err(NotFound)
    else if !b.scanMatchesSelect then Err(Internal)
    else Ok(rows[id])
  }

  /**
    `UPDATE ... SET <every non-ID column> WHERE id = ?` with the struct's own
    ID: the row with that key takes the struct's values; when no row has that
    key nothing changes, and the handlers do not check for that.
  */
  function UpdateWhere(s: Schema, rows: Rows, e: Entity): (r: Rows)
    requires SchemaOk(s) && TableOk(s, rows) && Fits(s, e)
    ensures TableOk(s, r) && r.Keys == rows.Keys
    ensures forall id :: id in rows && id != IdOf(e) ==> r[id] == rows[id]
    ensures IdOf(e) in rows ==> r[IdOf(e)] == e
  {
    if IdOf(e) in rows then rows[IdOf(e) := e] else rows
  }

  // ---------------------------------------------------------------------------
  // Bulk PATCH (teachers.go:287-359)
  // ---------------------------------------------------------------------------

  /**
    What one bulk PATCH object writes, or why it fails before its UPDATE: the
    "id" member must be a JSON string holding an integer, the row is read
    through the connection (the table as it was before the batch, not the
    transaction) by a SELECT that fails when `fault` holds, and the bulk merge
    must not refuse.
  */
  function EntryWrite(s: Schema, b: Binding, base: Rows, u: map<string, Json>, fault: bool): (r: Result<Entity>)
    requires SchemaOk(s) && TableOk(s, base)
    ensures r.Ok? ==> Fits(s, r.value) && !fault
  {
    if "id" !in u || !u["id"].JString? then Err(InvalidId)
    else match Atoi(u["id"].s)
      case None => Err(Internal)
      case Some(id) =>
        match ReadRow(b, base, id, fault)
        case Err(e) => Err(e)
        case Ok(row) =>
          if BulkRefuses(s, u) then Err(MergeRefused) else Ok(BulkMerged(s, row, u))
  }

  /**
    The transaction's view after the objects `updates[i..]` have been applied
    in order to `view`; object j's SELECT is query number j, its UPDATE is
    Exec number j, and the first failure ends the batch.
  */
  function PatchRun(s: Schema, b: Binding, base: Rows, view: Rows, updates: seq<map<string, Json>>,
                    i: nat, f: Faults): (r: Result<Rows>)
    requires SchemaOk(s) && TableOk(s, base) && TableOk(s, view) && i <= |updates|
    ensures r.Ok? ==> TableOk(s, r.value) && r.value.Keys == view.Keys
    decreases |updates| - i
  {
    if i == |updates| then Ok(view)
    else match EntryWrite(s, b, base, updates[i], i in f.query)
      case Err(e) => Err(e)
      case Ok(m) =>
        if i in f.exec || !b.updateArgsMatch then Err(Internal)
        else PatchRun(s, b, base, UpdateWhere(s, view, m), updates, i + 1, f)
  }

  /** One step of the batch: the object at index `i` fails it, or its UPDATE is applied and the run goes on. */
  lemma PatchRunStep(s: Schema, b: Binding, base: Rows, view: Rows, updates: seq<map<string, Json>>,
                     i: nat, f: Faults)
    requires SchemaOk(s) && TableOk(s, base) && TableOk(s, view) && i < |updates|
    ensures var w := EntryWrite(s, b, base, updates[i], i in f.query);
      && (w.Err? ==> PatchRun(s, b, base, view, updates, i, f) == Err(w.error))
      && (w.Ok? && (i in f.exec || !b.updateArgsMatch) ==> PatchRun(s, b, base, view, updates, i, f) == Err(Internal))
      && (w.Ok? && i !in f.exec && b.updateArgsMatch ==>
            PatchRun(s, b, base, view, updates, i, f) == PatchRun(s, b, base, UpdateWhere(s, view, w.value), updates, i + 1, f))
  {
  }

  /** The whole bulk PATCH: Begin, the entries, Commit. */
  function PatchManyResult(s: Schema, b: Binding, base: Rows, updates: seq<map<string, Json>>,
                           f: Faults): Result<Rows>
    requires SchemaOk(s) && TableOk(s, base)
  {
    if f.begin then Err(Internal)
    else match PatchRun(s, b, base, base, updates, 0, f)
      case Err(e) => Err(e)
      case Ok(v) => if f.commit then Err(Internal) else Ok(v)
  }

  /** Every object from index `i` on passes its checks, its SELECT succeeds, and its UPDATE is not a failing Exec. */
  predicate EntriesOk(s: Schema, b: Binding, base: Rows, updates: seq<map<string, Json>>, i: nat, f: Faults)
    requires SchemaOk(s) && TableOk(s, base)
  {
    forall j :: i <= j < |updates| ==> EntryWrite(s, b, base, updates[j], j in f.query).Ok? && j !in f.exec
  }

  /**
    All or nothing: the batch reaches Commit exactly when every object passes
    its checks and every SELECT and UPDATE succeeds; one failing object
    anywhere fails the whole batch.
  */
  lemma {:induction false} PatchRunOkIff(s: Schema, b: Binding, base: Rows, view: Rows,
                                         updates: seq<map<string, Json>>, i: nat, f: Faults)
    requires SchemaOk(s) && TableOk(s, base) && TableOk(s, view) && i <= |updates|
    ensures PatchRun(s, b, base, view, updates, i, f).Ok? <==>
      EntriesOk(s, b, base, updates, i, f) && (i < |updates| ==> b.updateArgsMatch)
    decreases |updates| - i
  {
    if i < |updates| {
      var w := EntryWrite(s, b, base, updates[i], i in f.query);
      if w.Ok? && i !in f.exec && b.updateArgsMatch {
        PatchRunOkIff(s, b, base, UpdateWhere(s, view, w.value), updates, i + 1, f);
      }
    }
  }

  /** The row an object's UPDATE addresses once its SELECT succeeds: the ID of the merged struct. */
  predicate Addresses(s: Schema, b: Binding, base: Rows, u: map<string, Json>, id: int)
    requires SchemaOk(s) && TableOk(s, base)
  {
    EntryWrite(s, b, base, u, false).Ok? && IdOf(EntryWrite(s, b, base, u, false).value) == id
  }

  /** Nothing else changes: a row that no object addresses leaves the batch as it entered. */
  lemma {:induction false} PatchRunUntouched(s: Schema, b: Binding, base: Rows, view: Rows,
                                             updates: seq<map<string, Json>>, i: nat, f: Faults, id: int)
    requires SchemaOk(s) && TableOk(s, base) && TableOk(s, view) && i <= |updates|
    requires PatchRun(s, b, base, view, updates, i, f).Ok? && id in view
    requires forall j :: i <= j < |updates| ==> !Addresses(s, b, base, updates[j], id)
    ensures PatchRun(s, b, base, view, updates, i, f).value[id] == view[id]
    decreases |updates| - i
  {
    if i < |updates| {
      PatchRunStep(s, b, base, view, updates, i, f);
      var m := EntryWrite(s, b, base, updates[i], i in f.query).value;
      assert i !in f.query;
      assert !Addresses(s, b, base, updates[i], id);
      PatchRunUntouched(s, b, base, UpdateWhere(s, view, m), updates, i + 1, f, id);
    }
  }

  /**
    The last object that addresses a row decides it entirely: the row ends up
    as that object's patch merged into the row as it was BEFORE the batch, so
    an earlier object for the same ID is overwritten, all columns included.
  */
  lemma {:induction false} PatchRunLastWins(s: Schema, b: Binding, base: Rows, view: Rows,
                                            updates: seq<map<string, Json>>, i: nat, f: Faults, j: nat, m: Entity)
    requires SchemaOk(s) && TableOk(s, base) && TableOk(s, view) && i <= j < |updates|
    requires PatchRun(s, b, base, view, updates, i, f).Ok?
    requires EntryWrite(s, b, base, updates[j], false) == Ok(m) && IdOf(m) in view
    requires forall k :: j < k < |updates| ==> !Addresses(s, b, base, updates[k], IdOf(m))
    ensures PatchRun(s, b, base, view, updates, i, f).value[IdOf(m)] == m
    decreases |updates| - i
  {
    PatchRunStep(s, b, base, view, updates, i, f);
    assert i !in f.query;
    var view' := UpdateWhere(s, view, EntryWrite(s, b, base, updates[i], false).value);
    if j == i {
      PatchRunUntouched(s, b, base, view', updates, i + 1, f, IdOf(m));
    } else {
      PatchRunLastWins(s, b, base, view', updates, i + 1, f, j, m);
    }
  }

  // ---------------------------------------------------------------------------
  // Bulk DELETE (teachers.go:505-548)
  // ---------------------------------------------------------------------------

  /** The transaction's view after deleting `ids[i..]` in order; the delete of `ids[j]` is Exec number j. */
  function DeleteRun(view: Rows, ids: seq<int>, i: nat, fails: set<nat>): Result<Rows>
    requires i <= |ids|
    decreases |ids| - i
  {
    if i == |ids| then Ok(view)
    else if i in fails then Err(Internal)
    else if ids[i] !in view then Err(IdDoesNotExist(ids[i]))
    else DeleteRun(view - {ids[i]}, ids, i + 1, fails)
  }

  /** The whole bulk DELETE: Begin, Prepare, the deletes, Commit, then the empty-list check. */
  function DeleteManyResult(base: Rows, ids: seq<int>, f: Faults): Result<Rows> {
    if f.begin || f.prepare then Err(Internal)
    else match DeleteRun(base, ids, 0, f.exec)
      case Err(e) => Err(e)
      case Ok(v) => if f.commit then Err(Internal) else if |ids| < 1 then Err(IdsDoNotExist) else Ok(v)
  }

  /** Every delete from index `i` on is not a failing Exec and finds its row in `view`. */
  predicate AllPresent(view: Rows, ids: seq<int>, i: nat, fails: set<nat>) {
    forall j :: i <= j < |ids| ==> j !in fails && ids[j] in view
  }

  /** No ID occurs twice from index `i` on. */
  predicate DistinctFrom(ids: seq<int>, i: nat) {
    forall j, k :: i <= j < k < |ids| ==> ids[j] != ids[k]
  }

  /** The IDs listed from index `i` on. */
  function IdsFrom(ids: seq<int>, i: nat): set<int> {
    set j | i <= j < |ids| :: ids[j]
  }

  /**
    The deletes succeed exactly when no Exec fails and the IDs are distinct
    and all present; a repeated ID fails because its second DELETE affects no
    row. On success exactly the listed rows are gone.
  */
  lemma {:induction false} DeleteRunSpec(view: Rows, ids: seq<int>, i: nat, fails: set<nat>)
    requires i <= |ids|
    ensures DeleteRun(view, ids, i, fails).Ok? <==> AllPresent(view, ids, i, fails) && DistinctFrom(ids, i)
    ensures DeleteRun(view, ids, i, fails).Ok? ==> DeleteRun(view, ids, i, fails).value == view - IdsFrom(ids, i)
    decreases |ids| - i
  {
    if i == |ids| {
      assert IdsFrom(ids, i) == {};
      assert view - IdsFrom(ids, i) == view;
    } else {
      var view' := view - {ids[i]};
      DeleteRunSpec(view', ids, i + 1, fails);
      assert IdsFrom(ids, i) == {ids[i]} + IdsFrom(ids, i + 1);
      if AllPresent(view, ids, i, fails) && DistinctFrom(ids, i) {
        forall j | i + 1 <= j < |ids|
          ensures j !in fails && ids[j] in view'
        {
          assert ids[i] != ids[j];
        }
      }
      if DeleteRun(view, ids, i, fails).Ok? {
        assert AllPresent(view', ids, i + 1, fails);
        forall j, k | i <= j < k < |ids|
          ensures ids[j] != ids[k]
        {
          if j == i {
            assert ids[k] in view';
          }
        }
        assert view' - IdsFrom(ids, i + 1) == view - IdsFrom(ids, i);
      }
    }
  }

  // ---------------------------------------------------------------------------
  // POST (teachers.go:140-204)
  // ---------------------------------------------------------------------------

  /** Every key of every submitted object is an allowed field name. */
  predicate AllKeysAllowed(objects: seq<map<string, Json>>, allowed: set<string>) {
    forall i, k :: 0 <= i < |objects| && k in objects[i] ==> k in allowed
  }

  /** The table after the first `n` items have been inserted in order, item i under ID `start + i`. */
  function Inserted(s: Schema, rows: Rows, start: int, es: seq<Entity>, n: nat): Rows
    requires SchemaOk(s) && AllFit(s, es) && n <= |es|
  {
    if n == 0 then rows
    else Inserted(s, rows, start, es, n - 1)[start + n - 1 := WithId(es[n - 1], start + n - 1)]
  }

  /** What the response lists: each item with the ID its insert received. */
  function Added(s: Schema, start: int, es: seq<Entity>): (r: seq<Entity>)
    requires SchemaOk(s) && AllFit(s, es)
    ensures |r| == |es| && AllFit(s, r)
    ensures forall i :: 0 <= i < |es| ==> IdOf(r[i]) == start + i
    ensures forall i :: 0 <= i < |es| ==> r[i][1..] == es[i][1..]
  {
    seq(|es|, i requires 0 <= i < |es| => WithId(es[i], start + i))
  }

  /** The IDs after n inserts: the old ones and `start .. start + n - 1`. */
  lemma {:induction false} InsertedKeys(s: Schema, rows: Rows, start: int, es: seq<Entity>, n: nat)
    requires SchemaOk(s) && AllFit(s, es) && n <= |es|
    ensures forall id :: id in Inserted(s, rows, start, es, n) <==> id in rows || start <= id < start + n
  {
    if n > 0 {
      InsertedKeys(s, rows, start, es, n - 1);
    }
  }

  /** When the counter is above every ID in use, n inserts add n rows and overwrite none. */
  lemma {:induction false} InsertedKeeps(s: Schema, rows: Rows, start: int, es: seq<Entity>, n: nat)
    requires SchemaOk(s) && AllFit(s, es) && n <= |es|
    requires forall id :: id in rows ==> id < start
    ensures |Inserted(s, rows, start, es, n)| == |rows| + n
    ensures forall id :: id in rows ==> id in Inserted(s, rows, start, es, n) && Inserted(s, rows, start, es, n)[id] == rows[id]
  {
    if n > 0 {
      InsertedKeys(s, rows, start, es, n - 1);
      InsertedKeeps(s, rows, start, es, n - 1);
      assert start + n - 1 !in Inserted(s, rows, start, es, n - 1);
    }
  }

  /** Item i is stored under `start + i`, with that ID. */
  lemma {:induction false} InsertedAt(s: Schema, rows: Rows, start: int, es: seq<Entity>, n: nat, i: nat)
    requires SchemaOk(s) && AllFit(s, es) && i < n <= |es|
    ensures start + i in Inserted(s, rows, start, es, n)
    ensures Inserted(s, rows, start, es, n)[start + i] == WithId(es[i], start + i)
  {
    if i < n - 1 {
      InsertedAt(s, rows, start, es, n - 1, i);
    }
  }

  /**
    Inserting the first n items into a table whose IDs are all below the
    counter keeps every existing row, adds exactly the IDs
    `start .. start + n - 1`, so grows by n, and stores item i under
    `start + i` exactly as the response lists it.
  */
  lemma InsertedSpec(s: Schema, rows: Rows, start: int, es: seq<Entity>, n: nat)
    requires SchemaOk(s) && AllFit(s, es) && n <= |es|
    requires forall id :: id in rows ==> id < start
    ensures |Inserted(s, rows, start, es, n)| == |rows| + n
    ensures forall id :: id in Inserted(s, rows, start, es, n) <==> id in rows || start <= id < start + n
    ensures forall id :: id in rows ==> Inserted(s, rows, start, es, n)[id] == rows[id]
    ensures forall i :: 0 <= i < n ==> Inserted(s, rows, start, es, n)[start + i] == Added(s, start, es)[i]
  {
    InsertedKeys(s, rows, start, es, n);
    InsertedKeeps(s, rows, start, es, n);
    forall i | 0 <= i < n
      ensures Inserted(s, rows, start, es, n)[start + i] == Added(s, start, es)[i]
    {
      InsertedAt(s, rows, start, es, n, i);
      assert Added(s, start, es)[i] == WithId(es[i], start + i);
    }
  }

  /**
    What the insert phase of POST leaves behind, as the table `rows`, counter
    `next` and response `r`, starting from `rows0` and `next0`: on success
    every item is stored under the next counter value and echoed with it;
    Prepare failing changes nothing; otherwise the first failing Exec k stops
    the batch with items 0 .. k-1 already stored, since there is no
    transaction.
  */
  predicate InsertOutcome(s: Schema, rows0: Rows, next0: int, items: seq<Entity>, f: Faults,
                          r: Result<seq<Entity>>, rows: Rows, next: int)
    requires SchemaOk(s) && AllFit(s, items)
  {
    && (r.Ok? <==> !f.prepare && forall i :: 0 <= i < |items| ==> i !in f.exec)
    && (r.Ok? ==> r.value == Added(s, next0, items) &&
                  rows == Inserted(s, rows0, next0, items, |items|) && next == next0 + |items|)
    && (r.Err? ==> r.error == Internal)
    && (r.Err? && f.prepare ==> rows == rows0 && next == next0)
    && (r.Err? && !f.prepare ==>
          exists k :: 0 <= k < |items| && k in f.exec && (forall j :: 0 <= j < k ==> j !in f.exec) &&
                      rows == Inserted(s, rows0, next0, items, k) && next == next0 + k)
  }

  /** The state of the insert loop after i items: stored, counted, echoed, none of them failing. */
  predicate InsertProgress(s: Schema, rows0: Rows, next0: int, items: seq<Entity>, f: Faults, i: nat,
                           rows: Rows, next: int, added: seq<Entity>)
    requires SchemaOk(s) && AllFit(s, items)
  {
    && i <= |items| && |added| == |items| && next == next0 + i
    && rows == Inserted(s, rows0, next0, items, i)
    && (forall j :: 0 <= j < i ==> j !in f.exec)
    && (forall j :: 0 <= j < i ==> added[j] == WithId(items[j], next0 + j))
  }

  /** One more successful Exec moves the insert loop from item i to item i + 1. */
  lemma InsertAdvance(s: Schema, rows0: Rows, next0: int, items: seq<Entity>, f: Faults, i: nat,
                      rows: Rows, added: seq<Entity>, stored: Entity)
    requires SchemaOk(s) && AllFit(s, items) && i < |items| && i !in f.exec
    requires InsertProgress(s, rows0, next0, items, f, i, rows, next0 + i, added)
    requires stored == WithId(items[i], next0 + i)
    ensures InsertProgress(s, rows0, next0, items, f, i + 1, rows[next0 + i := stored], next0 + i + 1, added[i := stored])
  {
  }

  lemma InsertStoppedAt(s: Schema, rows0: Rows, next0: int, items: seq<Entity>, f: Faults, k: nat)
    requires SchemaOk(s) && AllFit(s, items) && !f.prepare
    requires k < |items| && k in f.exec && forall j :: 0 <= j < k ==> j !in f.exec
    ensures InsertOutcome(s, rows0, next0, items, f, Err(Internal), Inserted(s, rows0, next0, items, k), next0 + k)
  {
  }

  lemma InsertCompleted(s: Schema, rows0: Rows, next0: int, items: seq<Entity>, f: Faults, added: seq<Entity>)
    requires SchemaOk(s) && AllFit(s, items) && !f.prepare
    requires forall j :: 0 <= j < |items| ==> j !in f.exec
    requires |added| == |items| && forall j :: 0 <= j < |items| ==> added[j] == WithId(items[j], next0 + j)
    ensures InsertOutcome(s, rows0, next0, items, f, Ok(added), Inserted(s, rows0, next0, items, |items|), next0 + |items|)
  {
  }

  /** CheckFieldNames' whitelist test (teachers.go:140-149): every key of every object. */
  method CheckKeysAllowed(objects: seq<map<string, Json>>, allowed: set<string>) returns (ok: bool)
    ensures ok <==> AllKeysAllowed(objects, allowed)
  {
    for i := 0 to |objects|
      invariant forall i', k :: 0 <= i' < i && k in objects[i'] ==> k in allowed
    {
      var keys := objects[i].Keys;
      while keys != {}
        invariant keys <= objects[i].Keys
        invariant forall k :: k in objects[i] && k !in keys ==> k in allowed
        decreases keys
      {
        var key :| key in keys;
        if key !in allowed {
          return false;
        }
        keys := keys - {key};
      }
    }
    return true;
  }

  /** The CheckBlankFields loop (teachers.go:158-165); the per-item test itself is a parameter. */
  method CheckNoneBlank(es: seq<Entity>, isBlank: Entity -> bool) returns (ok: bool)
    ensures ok <==> forall i :: 0 <= i < |es| ==> !isBlank(es[i])
  {
    for i := 0 to |es|
      invariant forall j :: 0 <= j < i ==> !isBlank(es[j])
    {
      if isBlank(es[i]) {
        return false;
      }
    }
    return true;
  }

  // ---------------------------------------------------------------------------
  // The table and its handlers
  // ---------------------------------------------------------------------------

  class Table {
    const schema: Schema
    const binding: Binding
    var rows: Rows
    /** The next AUTO_INCREMENT value: above every ID in use. */
    var nextId: int

    ghost predicate Valid()
      reads this
    {
      SchemaOk(schema) && TableOk(schema, rows) && (forall id :: id in rows ==> id < nextId)
    }

    constructor (schema: Schema, binding: Binding)
      requires SchemaOk(schema)
      ensures Valid() && this.schema == schema && this.binding == binding
      ensures rows == map[] && nextId == 1
    {
      this.schema := schema;
      this.binding := binding;
      rows := map[];
      nextId := 1;
    }

    /** GET /teachers/{id} (teachers.go:78-102). */
    method GetOne(pathId: string, f: Faults) returns (r: Result<Entity>)
      requires Valid()
      ensures Atoi(pathId).None? ==> r == Err(InvalidId)
      ensures Atoi(pathId).Some? ==> var id := Atoi(pathId).value;
        (r.Ok? <==> 0 !in f.query && id in rows && binding.scanMatchesSelect) &&
        (r.Ok? ==> r.value == rows[id] && IdOf(r.value) == id) &&
        (0 !in f.query && id !in rows ==> r == Err(NotFound)) &&
        (0 in f.query || (id in rows && !binding.scanMatchesSelect) ==> r == Err(Internal))
    {
      var parsed := Atoi(pathId);
      if parsed.None? {
        return Err(InvalidId);
      }
      r := ReadRow(binding, rows, parsed.value, 0 in f.query);
    }

    /**
      PUT /teachers/{id} (teachers.go:213-257): the decoded body replaces every
      non-ID column of the stored row, empty values included, and keeps the
      stored ID; the response echoes the written struct.
    */
    method Replace(pathId: string, body: Entity, f: Faults) returns (r: Result<Entity>)
      requires Valid() && Fits(schema, body)
      modifies this
      ensures Valid() && nextId == old(nextId)
      ensures r.Ok? <==> (Atoi(pathId).Some? && 0 !in f.query && Atoi(pathId).value in old(rows) &&
                          binding.scanMatchesSelect && binding.updateArgsMatch && 0 !in f.exec)
      ensures r.Ok? ==> var id := Atoi(pathId).value;
        r.value == WithId(body, id) && rows == old(rows)[id := r.value]
      ensures r.Err? ==> rows == old(rows)
      ensures Atoi(pathId).None? ==> r == Err(InvalidId)
      ensures Atoi(pathId).Some? && 0 !in f.query && Atoi(pathId).value !in old(rows) ==> r == Err(NotFound)
      ensures (Atoi(pathId).Some? &&
               (0 in f.query ||
                (Atoi(pathId).value in old(rows) &&
                 !(binding.scanMatchesSelect && binding.updateArgsMatch && 0 !in f.exec)))) ==> r == Err(Internal)
    {
      var parsed := Atoi(pathId);
      if parsed.None? {
        return Err(InvalidId);
      }
      var existing := ReadRow(binding, rows, parsed.value, 0 in f.query);
      if existing.Err? {
        return Err(existing.error);
      }
      var updated := WithId(body, IdOf(existing.value));
      if 0 in f.exec || !binding.updateArgsMatch {
        return Err(Internal);
      }
      rows := UpdateWhere(schema, rows, updated);
      return Ok(updated);
    }

    /**
      PATCH /teachers/{id} (teachers.go:365-425): the stored row with every
      matched field replaced, written back with `WHERE id = <merged ID>` and
      echoed, whether or not that UPDATE found a row.
    */
    method PatchOne(pathId: string, u: map<string, Json>, f: Faults) returns (r: Result<Entity>)
      requires Valid()
      modifies this
      ensures Valid() && nextId == old(nextId)
      ensures r.Ok? <==> (Atoi(pathId).Some? && 0 !in f.query && Atoi(pathId).value in old(rows) &&
                          binding.scanMatchesSelect && !OneRefuses(schema, u) && binding.updateArgsMatch && 0 !in f.exec)
      ensures r.Ok? ==> var id := Atoi(pathId).value;
        r.value == OneMerged(schema, old(rows)[id], u) && rows == UpdateWhere(schema, old(rows), r.value)
      ensures r.Err? ==> rows == old(rows)
      ensures Atoi(pathId).None? ==> r == Err(InvalidId)
      ensures Atoi(pathId).Some? && 0 !in f.query && Atoi(pathId).value !in old(rows) ==> r == Err(NotFound)
      ensures (Atoi(pathId).Some? && 0 !in f.query && Atoi(pathId).value in old(rows) && binding.scanMatchesSelect &&
               OneRefuses(schema, u)) ==> r == Err(MergeRefused)
      ensures (Atoi(pathId).Some? &&
               (0 in f.query ||
                (Atoi(pathId).value in old(rows) &&
                 (!binding.scanMatchesSelect ||
                  (!OneRefuses(schema, u) && (!binding.updateArgsMatch || 0 in f.exec)))))) ==> r == Err(Internal)
    {
      var parsed := Atoi(pathId);
      if parsed.None? {
        return Err(InvalidId);
      }
      var existing := ReadRow(binding, rows, parsed.value, 0 in f.query);
      if existing.Err? {
        return Err(existing.error);
      }
      var merged := MergeOne(schema, existing.value, u);
      if merged.Refused? {
        return Err(MergeRefused);
      }
      if 0 in f.exec || !binding.updateArgsMatch {
        return Err(Internal);
      }
      rows := UpdateWhere(schema, rows, merged.entity);
      return Ok(merged.entity);
    }

    /**
      One object of a bulk PATCH up to its UPDATE (teachers.go:288-342): the
      "id" member is read as a string and parsed, the row is read through the
      connection by a SELECT that fails when `fault` holds, and the bulk merge
      is applied to it.
    */
    method BulkEntry(u: map<string, Json>, fault: bool) returns (w: Result<Entity>)
      requires Valid()
      ensures w == EntryWrite(schema, binding, rows, u, fault)
      ensures w.Ok? ==> Fits(schema, w.value)
    {
      if "id" !in u || !u["id"].JString? {
        return Err(InvalidId);
      }
      var parsed := Atoi(u["id"].s);
      if parsed.None? {
        return Err(Internal);
      }
      var existing := ReadRow(binding, rows, parsed.value, fault);
      if existing.Err? {
        return Err(existing.error);
      }
      var merged := MergeBulk(schema, existing.value, u);
      if merged.Refused? {
        return Err(MergeRefused);
      }
      return Ok(merged.entity);
    }

    /**
      The loop of a bulk PATCH (teachers.go:287-352): each object's UPDATE is
      applied to the transaction `tx`, never to the table itself, and the first
      failure abandons `tx`.
    */
    method ApplyEntries(updates: seq<map<string, Json>>, f: Faults) returns (r: Result<Rows>)
      requires Valid()
      ensures r == PatchRun(schema, binding, rows, rows, updates, 0, f)
    {
      var tx := rows;
      var i := 0;
      while i < |updates|
        invariant 0 <= i <= |updates|
        invariant TableOk(schema, tx) && tx.Keys == rows.Keys
        invariant PatchRun(schema, binding, rows, rows, updates, 0, f) ==
                  PatchRun(schema, binding, rows, tx, updates, i, f)
      {
        var written := BulkEntry(updates[i], i in f.query);
        PatchRunStep(schema, binding, rows, tx, updates, i, f);
        if written.Err? {
          return Err(written.error);
        }
        if i in f.exec || !binding.updateArgsMatch {
          return Err(Internal);
        }
        tx := UpdateWhere(schema, tx, written.value);
        i := i + 1;
      }
      return Ok(tx);
    }

    /**
      PATCH /teachers (teachers.go:262-361): every object is applied inside one
      transaction, and the table changes only if the transaction commits.
    */
    method PatchMany(updates: seq<map<string, Json>>, f: Faults) returns (r: Status)
      requires Valid()
      modifies this
      ensures Valid() && nextId == old(nextId)
      ensures var spec := PatchManyResult(schema, binding, old(rows), updates, f);
        (r.Done? <==> spec.Ok?) &&
        (r.Done? ==> rows == spec.value) &&
        (r.Failed? ==> r.error == spec.error && rows == old(rows))
    {
      if f.begin {
        return Failed(Internal);
      }
      var tx := ApplyEntries(updates, f);
      if tx.Err? {
        return Failed(tx.error);
      }
      if f.commit {
        return Failed(Internal);
      }
      rows := tx.value;
      return Done;
    }

    /**
      POST /teachers (teachers.go:106-209): nothing is inserted unless every
      key is allowed and no item is blank; then the items are inserted.
    */
    method AddMany(objects: seq<map<string, Json>>, items: seq<Entity>, allowed: set<string>,
                   isBlank: Entity -> bool, f: Faults) returns (r: Result<seq<Entity>>)
      requires Valid() && |objects| == |items| && AllFit(schema, items)
      modifies this
      ensures Valid()
      ensures !AllKeysAllowed(objects, allowed) ==>
        r == Err(UnacceptableFields) && rows == old(rows) && nextId == old(nextId)
      ensures AllKeysAllowed(objects, allowed) && (exists i :: 0 <= i < |items| && isBlank(items[i])) ==>
        r == Err(InvalidBody) && rows == old(rows) && nextId == old(nextId)
      ensures r.Ok? ==> AllKeysAllowed(objects, allowed) && (forall i :: 0 <= i < |items| ==> !isBlank(items[i]))
      ensures AllKeysAllowed(objects, allowed) && (forall i :: 0 <= i < |items| ==> !isBlank(items[i])) ==>
        InsertOutcome(schema, old(rows), old(nextId), items, f, r, rows, nextId)
    {
      var keysOk := CheckKeysAllowed(objects, allowed);
      if !keysOk {
        return Err(UnacceptableFields);
      }
      var noneBlank := CheckNoneBlank(items, isBlank);
      if !noneBlank {
        return Err(InvalidBody);
      }
      r := InsertItems(items, f);
    }

    /** One successful `stmt.Exec` of the insert: the item is stored under the next AUTO_INCREMENT value, which LastInsertId reports. */
    method StoreNext(item: Entity) returns (stored: Entity)
      requires Valid() && Fits(schema, item)
      modifies this
      ensures Valid() && stored == WithId(item, old(nextId))
      ensures rows == old(rows)[old(nextId) := stored] && nextId == old(nextId) + 1
    {
      stored := WithId(item, nextId);
      StoreKeepsTableOk(schema, rows, stored);
      rows := rows[nextId := stored];
      nextId := nextId + 1;
    }

    /** The insert loop of POST (teachers.go:167-193): one Exec per item, no transaction. */
    method InsertItems(items: seq<Entity>, f: Faults) returns (r: Result<seq<Entity>>)
      requires Valid() && AllFit(schema, items)
      modifies this
      ensures Valid() && InsertOutcome(schema, old(rows), old(nextId), items, f, r, rows, nextId)
    {
      if f.prepare {
        assert InsertOutcome(schema, rows, nextId, items, f, Err(Internal), rows, nextId);
        return Err(Internal);
      }
      ghost var rows0, next0 := rows, nextId;
      var added := new Entity[|items|];
      for i := 0 to |items|
        invariant Valid()
        invariant InsertProgress(schema, rows0, next0, items, f, i, rows, nextId, added[..])
      {
        if i in f.exec {
          InsertStoppedAt(schema, rows0, next0, items, f, i);
          return Err(Internal);
        }
        ghost var rowsBefore, addedBefore := rows, added[..];
        assert nextId == next0 + i;
        var stored := StoreNext(items[i]);
        added[i] := stored;
        assert added[..] == addedBefore[i := stored];
        assert rows == rowsBefore[next0 + i := stored] && nextId == next0 + i + 1;
        InsertAdvance(schema, rows0, next0, items, f, i, rowsBefore, addedBefore, stored);
      }
      InsertCompleted(schema, rows0, next0, items, f, added[..]);
      return Ok(added[..]);
    }

    /** DELETE /teachers/{id} (teachers.go:430-468). */
    method DeleteOne(pathId: string, f: Faults) returns (r: Status)
      requires Valid()
      modifies this
      ensures Valid() && nextId == old(nextId)
      ensures r.Done? <==> Atoi(pathId).Some? && 0 !in f.exec && Atoi(pathId).value in old(rows)
      ensures r.Done? ==> rows == old(rows) - {Atoi(pathId).value}
      ensures r.Failed? ==> rows == old(rows)
      ensures Atoi(pathId).None? ==> r == Failed(InvalidId)
      ensures Atoi(pathId).Some? && 0 !in f.exec && Atoi(pathId).value !in old(rows) ==> r == Failed(NotFound)
      ensures Atoi(pathId).Some? && 0 in f.exec ==> r == Failed(Internal)
    {
      var parsed := Atoi(pathId);
      if parsed.None? {
        return Failed(InvalidId);
      }
      if 0 in f.exec {
        return Failed(Internal);
      }
      var rowsAffected := if parsed.value in rows then 1 else 0;
      rows := rows - {parsed.value};
      if rowsAffected == 0 {
        return Failed(NotFound);
      }
      return Done;
    }

    /**
      DELETE /teachers (teachers.go:472-561): the listed IDs are deleted in one
      transaction; the response lists the deleted IDs.
    */
    method DeleteMany(ids: seq<int>, f: Faults) returns (r: Result<seq<int>>)
      requires Valid()
      modifies this
      ensures Valid() && nextId == old(nextId)
      ensures var spec := DeleteManyResult(old(rows), ids, f);
        (r.Ok? <==> spec.Ok?) &&
        (r.Ok? ==> r.value == ids && rows == spec.value) &&
        (r.Err? ==> r.error == spec.error && rows == old(rows))
    {
      if f.begin || f.prepare {
        return Err(Internal);
      }
      var tx := rows;
      var deletedIds: seq<int> := [];
      var i := 0;
      while i < |ids|
        invariant 0 <= i <= |ids|
        invariant Valid() && rows == old(rows) && nextId == old(nextId)
        invariant tx.Keys <= rows.Keys && TableOk(schema, tx)
        invariant deletedIds == ids[..i]
        invariant DeleteRun(rows, ids, 0, f.exec) == DeleteRun(tx, ids, i, f.exec)
      {
        var id := ids[i];
        if i in f.exec {
          return Err(Internal);
        }
        var rowsAffected := if id in tx then 1 else 0;
        tx := tx - {id};
        if rowsAffected > 0 {
          deletedIds := deletedIds + [id];
        }
        if rowsAffected < 1 {
          return Err(IdDoesNotExist(id));
        }
        i := i + 1;
      }
      if f.commit {
        return Err(Internal);
      }
      rows := tx;
      assert ids[..|ids|] == ids;
      if |deletedIds| < 1 {
        return Err(IdsDoNotExist);
      }
      return Ok(deletedIds);
    }
  }
}
