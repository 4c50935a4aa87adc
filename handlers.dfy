/**
  The two handler files as instances of the entity table.

  teachers.go and students.go run the same code against the `teachers` and
  `students` tables; they differ only in whether their SQL agrees with their
  Go bindings. In students.go every single-row SELECT lists six columns but
  scans five destinations, and every UPDATE has six placeholders but passes
  five arguments.
*/
module Handlers {
  import opened Wrappers
  import opened Values
  import opened Strconv
  import opened EntityTable

  /** teachers.go: every SELECT scans the six columns it lists, every UPDATE binds its six placeholders. */
  const Teachers := Binding(true, true)

  /** students.go as written: Scan gets five destinations for six columns, Exec five arguments for six placeholders. */
  const StudentsAsWritten := Binding(false, false)

  /** students.go with the sixth Scan destination and the sixth UPDATE argument restored. */
  const StudentsCorrected := Binding(true, true)

  /**
    As written, no student row can be read: an existing row fails the Scan
    (an internal error), and a missing one is reported as not found.
  */
  lemma {:induction false} StudentsReadNothing(rows: Rows, id: int, fault: bool)
    ensures ReadRow(StudentsAsWritten, rows, id, fault).Err?
    ensures id in rows ==> ReadRow(StudentsAsWritten, rows, id, fault) == Err(Internal)
  {
  }

  /** As written, a bulk PATCH of students can only commit when it lists no object. */
  lemma StudentsBulkPatchOnlyEmpty(s: Schema, base: Rows, updates: seq<map<string, Json>>, f: Faults)
    requires SchemaOk(s) && TableOk(s, base)
    ensures PatchManyResult(s, StudentsAsWritten, base, updates, f).Ok? ==> updates == []
  {
    PatchRunOkIff(s, StudentsAsWritten, base, base, updates, 0, f);
  }

  /**
    With the bindings corrected, a bulk PATCH of students whose objects all
    pass their checks commits when storage does not fail, as for teachers.
  */
  lemma StudentsCorrectedBulkPatch(s: Schema, base: Rows, updates: seq<map<string, Json>>)
    requires SchemaOk(s) && TableOk(s, base)
    requires forall j :: 0 <= j < |updates| ==> EntryWrite(s, StudentsCorrected, base, updates[j], false).Ok?
    ensures PatchManyResult(s, StudentsCorrected, base, updates, NoFaults).Ok?
  {
    PatchRunOkIff(s, StudentsCorrected, base, base, updates, 0, NoFaults);
  }

  /**
    As written, a student that POST has just stored cannot be read back or
    replaced: the first insert into an empty table gets ID 1, and both GET
    and PUT of ID 1 answer with an internal error.
  */
  method StudentsPostThenRead(s: Schema, student: Entity, allowed: set<string>)
    returns (posted: Result<seq<Entity>>, got: Result<Entity>, put: Result<Entity>)
    requires SchemaOk(s) && Fits(s, student)
    ensures posted.Ok? && posted.value == [WithId(student, 1)]
    ensures got == Err(Internal) && put == Err(Internal)
  {
    var t := new Table(s, StudentsAsWritten);
    assert AllKeysAllowed([map[]], allowed);
    posted := t.AddMany([map[]], [student], allowed, _ => false, NoFaults);
    assert posted.Ok?;
    assert t.rows == Inserted(s, map[], 1, [student], 1);
    assert Inserted(s, map[], 1, [student], 1) == Inserted(s, map[], 1, [student], 0)[1 := WithId(student, 1)];
    assert t.rows == map[1 := WithId(student, 1)];
    assert Added(s, 1, [student]) == [WithId(student, 1)];
    assert Atoi("1") == Some(1);
    got := t.GetOne("1", NoFaults);
    put := t.Replace("1", student, NoFaults);
  }

  /**
    With the bindings corrected, the student POST stored is what GET returns,
    and PUT replaces it keeping its ID.
  */
  method StudentsCorrectedPostThenRead(s: Schema, student: Entity, other: Entity, allowed: set<string>)
    returns (posted: Result<seq<Entity>>, got: Result<Entity>, put: Result<Entity>, again: Result<Entity>)
    requires SchemaOk(s) && Fits(s, student) && Fits(s, other)
    ensures posted.Ok? && posted.value == [WithId(student, 1)]
    ensures got == Ok(WithId(student, 1))
    ensures put == Ok(WithId(other, 1)) && again == Ok(WithId(other, 1))
  {
    var t := new Table(s, StudentsCorrected);
    assert AllKeysAllowed([map[]], allowed);
    posted := t.AddMany([map[]], [student], allowed, _ => false, NoFaults);
    assert posted.Ok?;
    assert t.rows == Inserted(s, map[], 1, [student], 1);
    assert Inserted(s, map[], 1, [student], 1) == Inserted(s, map[], 1, [student], 0)[1 := WithId(student, 1)];
    assert t.rows == map[1 := WithId(student, 1)];
    assert Added(s, 1, [student]) == [WithId(student, 1)];
    assert Atoi("1") == Some(1);
    got := t.GetOne("1", NoFaults);
    put := t.Replace("1", other, NoFaults);
    again := t.GetOne("1", NoFaults);
  }
}
