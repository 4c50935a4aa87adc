/**
  The reflect-driven partial update of one entity. A patch key `k` addresses a
  struct field whose json tag is exactly `k + ",omitempty"`.

  Two variants exist in the handlers:
  - the bulk PATCH merge skips the key "id", sets only the FIRST field whose tag
    matches, and refuses (rolls back) when the value is not ConvertibleTo the
    field's type;
  - the single-row PATCH merge skips nothing, sets EVERY matching field, and
    calls Convert unchecked, which panics on a value that does not convert.

  In both, keys matching no field are ignored and fields no key names keep
  their stored value. A decoded JSON object is a Go map, whose iteration order
  is unspecified: the loops below pick the next key arbitrarily, and the
  reference definitions are stated field by field, so the result does not
  depend on that order.
*/
module Merge {
  import opened Wrappers
  import opened Values

  const OmitEmpty: string := ",omitempty"

  /** The test `field.Tag.Get("json") == k + ",omitempty"`. */
  predicate Targets(f: Field, key: string) {
    f.tag == key + OmitEmpty
  }

  /** The only key a tag can answer to: the tag without its ",omitempty" suffix. */
  function KeyOf(tag: string): Option<string> {
    if |OmitEmpty| <= |tag| && tag[|tag| - |OmitEmpty|..] == OmitEmpty
    then Some(tag[..|tag| - |OmitEmpty|])
    else None
  }

  lemma TargetsIffKeyOf(f: Field, key: string)
    ensures Targets(f, key) <==> KeyOf(f.tag) == Some(key)
  {
    var t := f.tag;
    if Targets(f, key) {
      assert t[|t| - |OmitEmpty|..] == OmitEmpty;
      assert t[..|t| - |OmitEmpty|] == key;
    }
    if KeyOf(t) == Some(key) {
      assert t == t[..|t| - |OmitEmpty|] + t[|t| - |OmitEmpty|..];
    }
  }

  /** The index where the bulk merge's inner loop stops: the first field the key targets. */
  function FirstTarget(s: Schema, key: string): (r: Option<nat>)
    ensures r.Some? ==> r.value < |s| && Targets(s[r.value], key)
    ensures forall j :: 0 <= j < |s| && (r.None? || j < r.value) ==> !Targets(s[j], key)
  {
    if s == [] then None
    else if Targets(s[0], key) then Some(0)
    else match FirstTarget(s[1..], key)
      case None => None
      case Some(j) => Some(j + 1)
  }

  lemma FirstTargetIs(s: Schema, key: string, i: nat)
    requires i < |s| && Targets(s[i], key)
    requires forall j :: 0 <= j < i ==> !Targets(s[j], key)
    ensures FirstTarget(s, key) == Some(i)
  {
  }

  // ---------------------------------------------------------------------------
  // Outcome of a merge
  // ---------------------------------------------------------------------------

  /** Why a merge stopped: a value that does not convert, or a JSON null (reflect panics on it). */
  datatype MergeError = Inconvertible | NilValue

  datatype MergeOutcome = Merged(entity: Entity) | Refused(reason: MergeError)

  // ---------------------------------------------------------------------------
  // Bulk merge (PatchTeachersHandler / PatchStudentsHandler)
  // ---------------------------------------------------------------------------

  /** Key `k` of patch `u` is applied by the bulk merge to field `i`. */
  predicate BulkWrites(s: Schema, u: map<string, Json>, k: string, i: nat) {
    k in u && k != "id" && FirstTarget(s, k) == Some(i) && s[i].exported
  }

  /** Key `k` reaches a settable field its value cannot be converted to. */
  predicate BulkRefusesKey(s: Schema, u: map<string, Json>, k: string) {
    k in u && k != "id" && FirstTarget(s, k).Some? &&
    var i := FirstTarget(s, k).value;
    s[i].exported && !ConvertibleTo(u[k], s[i].kind)
  }

  predicate BulkRefuses(s: Schema, u: map<string, Json>) {
    exists k :: k in u && BulkRefusesKey(s, u, k)
  }

  /** Field `i` after the keys in `done` have been applied. */
  function BulkCell(s: Schema, row: Entity, u: map<string, Json>, done: set<string>, i: nat): Cell
    requires |row| == |s| && i < |s|
  {
    match KeyOf(s[i].tag)
    case Some(k) =>
      if k in done && BulkWrites(s, u, k, i) && ConvertibleTo(u[k], s[i].kind)
      then Convert(u[k], s[i].kind)
      else row[i]
    case None => row[i]
  }

  /** The row after the bulk merge has applied the keys in `done`. */
  function BulkMergedOn(s: Schema, row: Entity, u: map<string, Json>, done: set<string>): (r: Entity)
    requires |row| == |s|
    ensures |r| == |row|
    ensures Fits(s, row) ==> Fits(s, r)
  {
    seq(|row|, i requires 0 <= i < |row| => BulkCell(s, row, u, done, i))
  }

  /** The row the bulk merge produces once every key has been visited. */
  function BulkMerged(s: Schema, row: Entity, u: map<string, Json>): (r: Entity)
    requires |row| == |s|
    ensures |r| == |row|
    ensures Fits(s, row) ==> Fits(s, r)
  {
    BulkMergedOn(s, row, u, u.Keys)
  }

  /** How visiting one more key changes the partially merged row. */
  lemma BulkStep(s: Schema, row: Entity, u: map<string, Json>, done: set<string>, k: string)
    requires |row| == |s| && k in u && !BulkRefusesKey(s, u, k)
    ensures k == "id" || FirstTarget(s, k).None? || !s[FirstTarget(s, k).value].exported ==>
      BulkMergedOn(s, row, u, done + {k}) == BulkMergedOn(s, row, u, done)
    ensures k != "id" && FirstTarget(s, k).Some? && s[FirstTarget(s, k).value].exported ==>
      var i := FirstTarget(s, k).value;
      BulkMergedOn(s, row, u, done + {k}) == BulkMergedOn(s, row, u, done)[i := Convert(u[k], s[i].kind)]
  {
    var before, after := BulkMergedOn(s, row, u, done), BulkMergedOn(s, row, u, done + {k});
    forall j | 0 <= j < |row|
      ensures after[j] == if BulkWrites(s, u, k, j) then Convert(u[k], s[j].kind) else before[j]
    {
      if KeyOf(s[j].tag) == Some(k) {
        TargetsIffKeyOf(s[j], k);
      }
      if BulkWrites(s, u, k, j) {
        TargetsIffKeyOf(s[j], k);
      }
    }
  }

  /**
    The bulk merge loop (teachers.go:321-342): visit the keys in any order,
    skip "id", find the first field whose tag matches, and set it when it is
    settable and the value converts; a value that does not convert stops the
    merge (the handler then rolls back), and so does a null, on which
    `val.Type()` panics.
  */
  method MergeBulk(s: Schema, row: Entity, u: map<string, Json>) returns (r: MergeOutcome)
    requires |row| == |s|
    ensures r.Merged? <==> !BulkRefuses(s, u)
    ensures r.Merged? ==> r.entity == BulkMerged(s, row, u)
    ensures r == Refused(NilValue) ==> exists k :: k in u && BulkRefusesKey(s, u, k) && u[k] == JNull
    ensures r == Refused(Inconvertible) ==> exists k :: k in u && BulkRefusesKey(s, u, k) && u[k] != JNull
  {
    var e := row;
    var todo := u.Keys;
    while todo != {}
      invariant todo <= u.Keys
      invariant e == BulkMergedOn(s, row, u, u.Keys - todo)
      invariant forall k :: k in u.Keys - todo ==> !BulkRefusesKey(s, u, k)
      decreases todo
    {
      var k :| k in todo;
      todo := todo - {k};
      assert u.Keys - todo == (u.Keys - (todo + {k})) + {k};
      if k == "id" {
        BulkStep(s, row, u, u.Keys - (todo + {k}), k);
        continue;
      }
      var i := 0;
      while i < |s|
        invariant 0 <= i <= |s|
        invariant forall j :: 0 <= j < i ==> !Targets(s[j], k)
      {
        if Targets(s[i], k) {
          break;
        }
        i := i + 1;
      }
      if i < |s| {
        FirstTargetIs(s, k, i);
        if s[i].exported {
          var v := u[k];
          if v == JNull {
            assert BulkRefusesKey(s, u, k);
            return Refused(NilValue);
          }
          if !ConvertibleTo(v, s[i].kind) {
            assert BulkRefusesKey(s, u, k);
            return Refused(Inconvertible);
          }
          e := e[i := Convert(v, s[i].kind)];
        }
      }
      BulkStep(s, row, u, u.Keys - (todo + {k}), k);
    }
    return Merged(e);
  }

  // ---------------------------------------------------------------------------
  // Single-row merge (PatchOneTeacherHandler / PatchOneStudentHandler)
  // ---------------------------------------------------------------------------

  /** Key `k` of patch `u` is applied by the single-row merge to field `i`. */
  predicate OneWrites(s: Schema, u: map<string, Json>, k: string, i: nat) {
    k in u && i < |s| && Targets(s[i], k) && s[i].exported
  }

  /** Some settable field that `k` targets cannot take `u[k]`: `Convert` panics. */
  predicate OneRefusesKey(s: Schema, u: map<string, Json>, k: string) {
    exists i :: 0 <= i < |s| && OneWrites(s, u, k, i) && !ConvertibleTo(u[k], s[i].kind)
  }

  predicate OneRefuses(s: Schema, u: map<string, Json>) {
    exists k :: k in u && OneRefusesKey(s, u, k)
  }

  function OneCell(s: Schema, row: Entity, u: map<string, Json>, done: set<string>, i: nat): Cell
    requires |row| == |s| && i < |s|
  {
    match KeyOf(s[i].tag)
    case Some(k) =>
      if k in done && OneWrites(s, u, k, i) && ConvertibleTo(u[k], s[i].kind)
      then Convert(u[k], s[i].kind)
      else row[i]
    case None => row[i]
  }

  function OneMergedOn(s: Schema, row: Entity, u: map<string, Json>, done: set<string>): (r: Entity)
    requires |row| == |s|
    ensures |r| == |row|
    ensures Fits(s, row) ==> Fits(s, r)
  {
    seq(|row|, i requires 0 <= i < |row| => OneCell(s, row, u, done, i))
  }

  /** Field `i` once key `k` has been visited too: set when `k` writes it, as before otherwise. */
  lemma OneCellStep(s: Schema, row: Entity, u: map<string, Json>, done: set<string>, k: string, i: nat)
    requires |row| == |s| && i < |s| && k in u
    ensures OneCell(s, row, u, done + {k}, i) ==
      if OneWrites(s, u, k, i) && ConvertibleTo(u[k], s[i].kind) then Convert(u[k], s[i].kind)
      else OneCell(s, row, u, done, i)
  {
    TargetsIffKeyOf(s[i], k);
  }

  /** The row the single-row merge produces once every key has been visited. */
  function OneMerged(s: Schema, row: Entity, u: map<string, Json>): (r: Entity)
    requires |row| == |s|
    ensures |r| == |row|
    ensures Fits(s, row) ==> Fits(s, r)
  {
    OneMergedOn(s, row, u, u.Keys)
  }

  /**
    The single-row merge loop (teachers.go:405-415): for each key, in any order,
    every settable field whose tag matches is set with `Convert`; there is no
    "id" skip, no `break` and no ConvertibleTo check, so a value that does not
    convert (a null included) is a panic.
  */
  method MergeOne(s: Schema, row: Entity, u: map<string, Json>) returns (r: MergeOutcome)
    requires |row| == |s|
    ensures r.Merged? <==> !OneRefuses(s, u)
    ensures r.Merged? ==> r.entity == OneMerged(s, row, u)
    ensures r == Refused(NilValue) ==> exists k :: k in u && OneRefusesKey(s, u, k) && u[k] == JNull
    ensures r == Refused(Inconvertible) ==> exists k :: k in u && OneRefusesKey(s, u, k) && u[k] != JNull
  {
    var e := row;
    var todo := u.Keys;
    while todo != {}
      invariant todo <= u.Keys
      invariant e == OneMergedOn(s, row, u, u.Keys - todo)
      invariant forall k :: k in u.Keys - todo ==> !OneRefusesKey(s, u, k)
      decreases todo
    {
      var k :| k in todo;
      ghost var done := u.Keys - todo;
      todo := todo - {k};
      assert u.Keys - todo == done + {k};
      var i := 0;
      while i < |s|
        invariant 0 <= i <= |s| && |e| == |s|
        invariant forall j :: 0 <= j < i ==> e[j] == OneCell(s, row, u, done + {k}, j)
        invariant forall j :: i <= j < |s| ==> e[j] == OneCell(s, row, u, done, j)
        invariant forall j :: 0 <= j < i && OneWrites(s, u, k, j) ==> ConvertibleTo(u[k], s[j].kind)
      {
        OneCellStep(s, row, u, done, k, i);
        if Targets(s[i], k) {
          if s[i].exported {
            var v := u[k];
            if !ConvertibleTo(v, s[i].kind) {
              assert OneWrites(s, u, k, i);
              return Refused(if v == JNull then NilValue else Inconvertible);
            }
            e := e[i := Convert(v, s[i].kind)];
          }
        }
        i := i + 1;
      }
      assert e == OneMergedOn(s, row, u, done + {k});
    }
    return Merged(e);
  }

  // ---------------------------------------------------------------------------
  // What the two merges mean
  // ---------------------------------------------------------------------------

  /** Bulk: a key sets the first field it targets, converted to the field's kind. */
  lemma BulkSetsFirstTarget(s: Schema, row: Entity, u: map<string, Json>, k: string, i: nat)
    requires |row| == |s| && !BulkRefuses(s, u)
    requires BulkWrites(s, u, k, i)
    ensures ConvertibleTo(u[k], s[i].kind)
    ensures BulkMerged(s, row, u)[i] == Convert(u[k], s[i].kind)
  {
    assert !BulkRefusesKey(s, u, k);
    TargetsIffKeyOf(s[i], k);
  }

  /**
    Bulk: a field that no key sets keeps its stored value. This covers the
    skipped "id" key, keys that match no tag, and fields after the first one
    carrying a repeated tag.
  */
  lemma BulkKeepsUnnamed(s: Schema, row: Entity, u: map<string, Json>, i: nat)
    requires |row| == |s| && i < |s|
    requires forall k :: k in u ==> !BulkWrites(s, u, k, i)
    ensures BulkMerged(s, row, u)[i] == row[i]
  {
  }

  /** Bulk: the "id" key has no effect at all, neither on the result nor on refusal. */
  lemma BulkIgnoresId(s: Schema, row: Entity, u: map<string, Json>)
    requires |row| == |s|
    ensures BulkRefuses(s, u) <==> BulkRefuses(s, u - {"id"})
    ensures BulkMerged(s, row, u) == BulkMerged(s, row, u - {"id"})
  {
    var u' := u - {"id"};
    if BulkRefuses(s, u) {
      var k :| k in u && BulkRefusesKey(s, u, k);
      assert k in u' && BulkRefusesKey(s, u', k);
    }
    if BulkRefuses(s, u') {
      var k :| k in u' && BulkRefusesKey(s, u', k);
      assert k in u && BulkRefusesKey(s, u, k);
    }
    forall j | 0 <= j < |row|
      ensures BulkMerged(s, row, u)[j] == BulkMerged(s, row, u')[j]
    {
    }
  }

  /** Bulk: a key that matches no field's tag is silently ignored. */
  lemma BulkIgnoresUnknownKey(s: Schema, row: Entity, u: map<string, Json>, k: string)
    requires |row| == |s|
    requires forall i :: 0 <= i < |s| ==> !Targets(s[i], k)
    ensures BulkRefuses(s, u) <==> BulkRefuses(s, u - {k})
    ensures BulkMerged(s, row, u) == BulkMerged(s, row, u - {k})
  {
    var u' := u - {k};
    assert FirstTarget(s, k).None?;
    if BulkRefuses(s, u) {
      var k' :| k' in u && BulkRefusesKey(s, u, k');
      assert k' in u' && BulkRefusesKey(s, u', k');
    }
    if BulkRefuses(s, u') {
      var k' :| k' in u' && BulkRefusesKey(s, u', k');
      assert k' in u && BulkRefusesKey(s, u, k');
    }
    forall j | 0 <= j < |row|
      ensures BulkMerged(s, row, u)[j] == BulkMerged(s, row, u')[j]
    {
      if KeyOf(s[j].tag) == Some(k) {
        TargetsIffKeyOf(s[j], k);
      }
    }
  }

  /** Bulk: when the ID field's tag is "id,omitempty", no key can change the ID. */
  lemma BulkKeepsId(s: Schema, row: Entity, u: map<string, Json>)
    requires |row| == |s| && 0 < |s| && s[0].tag == "id" + OmitEmpty
    ensures BulkMerged(s, row, u)[0] == row[0]
  {
    forall k | k in u
      ensures !BulkWrites(s, u, k, 0)
    {
      if FirstTarget(s, k) == Some(0) {
        assert k + OmitEmpty == "id" + OmitEmpty;
        assert k == (k + OmitEmpty)[..|k|];
      }
    }
  }

  /** Single-row: a key sets every settable field whose tag it matches. */
  lemma OneSetsEveryTarget(s: Schema, row: Entity, u: map<string, Json>, k: string, i: nat)
    requires |row| == |s| && !OneRefuses(s, u)
    requires OneWrites(s, u, k, i)
    ensures ConvertibleTo(u[k], s[i].kind)
    ensures OneMerged(s, row, u)[i] == Convert(u[k], s[i].kind)
  {
    assert !OneRefusesKey(s, u, k);
    TargetsIffKeyOf(s[i], k);
  }

  /** Single-row: a field that no key targets keeps its stored value. */
  lemma OneKeepsUnnamed(s: Schema, row: Entity, u: map<string, Json>, i: nat)
    requires |row| == |s| && i < |s|
    requires forall k :: k in u ==> !OneWrites(s, u, k, i)
    ensures OneMerged(s, row, u)[i] == row[i]
  {
  }

  /** Single-row: a key that matches no field's tag is silently ignored too. */
  lemma OneIgnoresUnknownKey(s: Schema, row: Entity, u: map<string, Json>, k: string)
    requires |row| == |s|
    requires forall i :: 0 <= i < |s| ==> !Targets(s[i], k)
    ensures OneRefuses(s, u) <==> OneRefuses(s, u - {k})
    ensures OneMerged(s, row, u) == OneMerged(s, row, u - {k})
  {
    var u' := u - {k};
    if OneRefuses(s, u) {
      var k' :| k' in u && OneRefusesKey(s, u, k');
      var i :| 0 <= i < |s| && OneWrites(s, u, k', i) && !ConvertibleTo(u[k'], s[i].kind);
      assert k' in u' && OneWrites(s, u', k', i);
    }
    if OneRefuses(s, u') {
      var k' :| k' in u' && OneRefusesKey(s, u', k');
      var i :| 0 <= i < |s| && OneWrites(s, u', k', i) && !ConvertibleTo(u'[k'], s[i].kind);
      assert OneWrites(s, u, k', i);
    }
    forall j | 0 <= j < |row|
      ensures OneMerged(s, row, u)[j] == OneMerged(s, row, u')[j]
    {
      if KeyOf(s[j].tag) == Some(k) {
        TargetsIffKeyOf(s[j], k);
      }
    }
  }

  /**
    The two merges agree when the patch has no "id" key and the tags are
    distinct: the "id" skip, the `break` and the ConvertibleTo check are
    then the only differences, and the last one only turns a panic into a
    refusal.
  */
  lemma BulkAgreesWithOne(s: Schema, row: Entity, u: map<string, Json>)
    requires |row| == |s| && "id" !in u
    requires forall i, j :: 0 <= i < j < |s| ==> s[i].tag != s[j].tag
    ensures BulkRefuses(s, u) <==> OneRefuses(s, u)
    ensures BulkMerged(s, row, u) == OneMerged(s, row, u)
  {
    forall k, i | k in u && 0 <= i < |s|
      ensures BulkWrites(s, u, k, i) <==> OneWrites(s, u, k, i)
    {
      if OneWrites(s, u, k, i) {
        var f := FirstTarget(s, k);
        assert f.Some?;
        assert s[f.value].tag == s[i].tag;
        assert f == Some(i);
      }
    }
    if BulkRefuses(s, u) {
      var k :| k in u && BulkRefusesKey(s, u, k);
      var i := FirstTarget(s, k).value;
      assert OneWrites(s, u, k, i);
      assert OneRefusesKey(s, u, k);
    }
    if OneRefuses(s, u) {
      var k :| k in u && OneRefusesKey(s, u, k);
      var i :| 0 <= i < |s| && OneWrites(s, u, k, i) && !ConvertibleTo(u[k], s[i].kind);
      assert BulkWrites(s, u, k, i);
      assert BulkRefusesKey(s, u, k);
    }
    forall j | 0 <= j < |row|
      ensures BulkMerged(s, row, u)[j] == OneMerged(s, row, u)[j]
    {
    }
  }
}
