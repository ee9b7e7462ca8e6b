/** The UPDATE statement built from a patch, and what executing it means. */
module SqlPatch {
  import opened Common
  import opened VaultItems

  datatype SqlValue = Blob(blob: Bytes) | Integer(number: int) | Text(text: string)

  datatype Column = CiphertextColumn | DekVersionColumn | ItemVersionColumn | ConflictOfColumn

  const ALL_COLUMNS: set<Column> := {CiphertextColumn, DekVersionColumn, ItemVersionColumn, ConflictOfColumn}

  /** `column = $index`, or `updated_at = now()`. */
  datatype Assignment = SetParam(column: Column, index: int) | SetUpdatedAtNow

  /** `UPDATE vault_items SET <sets> WHERE id = $idParam AND user_id = $userIdParam RETURNING *`. */
  datatype Statement = Statement(sets: seq<Assignment>, idParam: int, userIdParam: int)

  /** The value a patch gives to a column, if it gives one. */
  function GivenValue(patch: Patch, column: Column): Option<SqlValue> {
    match column
    case CiphertextColumn => if patch.ciphertext.Given? then Some(Blob(patch.ciphertext.value)) else None
    case DekVersionColumn => if patch.dekVersion.Given? then Some(Integer(patch.dekVersion.value)) else None
    case ItemVersionColumn => if patch.itemVersion.Given? then Some(Integer(patch.itemVersion.value)) else None
    case ConflictOfColumn => if patch.conflictOf.Given? then Some(Text(patch.conflictOf.value)) else None
  }

  // ---- what it takes to be the right statement ----

  ghost predicate Assigns(stmt: Statement, column: Column, index: int) {
    SetParam(column, index) in stmt.sets
  }

  /**
   * The statement and its values express the patch: each given column is
   * assigned, once, from a placeholder that holds its own value; no other
   * column is assigned; and the last two placeholders are the id and the user.
   */
  ghost predicate Expresses(stmt: Statement, values: seq<SqlValue>, id: string, userId: string, patch: Patch) {
    && (forall column :: GivenValue(patch, column).Some? <==> exists n :: Assigns(stmt, column, n))
    && (forall column, n :: Assigns(stmt, column, n) ==>
          1 <= n <= |values| - 2 && Some(values[n - 1]) == GivenValue(patch, column))
    && (forall i, j :: 0 <= i < j < |stmt.sets| && stmt.sets[i].SetParam? && stmt.sets[j].SetParam? ==>
          stmt.sets[i].column != stmt.sets[j].column)
    && SetUpdatedAtNow in stmt.sets
    && |values| >= 2
    && stmt.idParam == |values| - 1 && values[|values| - 2] == Text(id)
    && stmt.userIdParam == |values| && values[|values| - 1] == Text(userId)
  }

  /** The placeholder numbers handed out so far match the values pushed so far. */
  ghost predicate InStep(sets: seq<Assignment>, values: seq<SqlValue>, patch: Patch, columns: set<Column>) {
    && |sets| == |values|
    && (forall i :: 0 <= i < |sets| ==>
          && sets[i].SetParam? && sets[i].index == i + 1
          && sets[i].column in columns
          && Some(values[i]) == GivenValue(patch, sets[i].column))
    && (forall i, j :: 0 <= i < j < |sets| ==> sets[i].column != sets[j].column)
    && (forall column :: column in columns && GivenValue(patch, column).Some? ==>
          exists i :: 0 <= i < |sets| && sets[i].column == column)
  }

  method PushField(
      sets: seq<Assignment>, values: seq<SqlValue>, paramIndex: int, column: Column,
      ghost patch: Patch, given: Option<SqlValue>, ghost columns: set<Column>)
    returns (sets': seq<Assignment>, values': seq<SqlValue>, paramIndex': int)
    requires InStep(sets, values, patch, columns) && paramIndex == |values| + 1
    requires given == GivenValue(patch, column) && column !in columns
    ensures InStep(sets', values', patch, columns + {column}) && paramIndex' == |values'| + 1
  {
    sets', values', paramIndex' := sets, values, paramIndex;
    if given.Some? {
      sets' := sets' + [SetParam(column, paramIndex')];
      paramIndex' := paramIndex' + 1;
      values' := values' + [given.value];
      assert sets'[|sets|].column == column;
      forall other | other in columns && GivenValue(patch, other).Some?
        ensures exists i :: 0 <= i < |sets'| && sets'[i].column == other
      {
        var i :| 0 <= i < |sets| && sets[i].column == other;
        assert sets'[i] == sets[i];
      }
    }
  }

  /** The four optional columns, in the order the code tries them. */
  method PushFields(patch: Patch) returns (sets: seq<Assignment>, values: seq<SqlValue>, paramIndex: int)
    ensures InStep(sets, values, patch, ALL_COLUMNS) && paramIndex == |values| + 1
  {
    sets, values, paramIndex := [], [], 1;
    ghost var tried: set<Column> := {};
    var given := GivenValue(patch, CiphertextColumn);
    sets, values, paramIndex := PushField(sets, values, paramIndex, CiphertextColumn, patch, given, tried);
    tried := tried + {CiphertextColumn};
    given := GivenValue(patch, DekVersionColumn);
    sets, values, paramIndex := PushField(sets, values, paramIndex, DekVersionColumn, patch, given, tried);
    tried := tried + {DekVersionColumn};
    given := GivenValue(patch, ItemVersionColumn);
    sets, values, paramIndex := PushField(sets, values, paramIndex, ItemVersionColumn, patch, given, tried);
    tried := tried + {ItemVersionColumn};
    given := GivenValue(patch, ConflictOfColumn);
    sets, values, paramIndex := PushField(sets, values, paramIndex, ConflictOfColumn, patch, given, tried);
    tried := tried + {ConflictOfColumn};
    assert tried == ALL_COLUMNS;
  }

  /** Builds the SET list and the value array side by side. */
  method BuildUpdate(id: string, userId: string, patch: Patch) returns (stmt: Statement, values: seq<SqlValue>)
    ensures Expresses(stmt, values, id, userId, patch)
  {
    var fields, fieldValues, paramIndex := PushFields(patch);
    var sets := fields + [SetUpdatedAtNow];
    var idParam := paramIndex;
    paramIndex := paramIndex + 1;
    var userIdParam := paramIndex;
    values := fieldValues + [Text(id), Text(userId)];
    stmt := Statement(sets, idParam, userIdParam);
    InStepExpresses(fields, fieldValues, id, userId, patch);
  }

  lemma InStepExpresses(fields: seq<Assignment>, fieldValues: seq<SqlValue>, id: string, userId: string, patch: Patch)
    requires InStep(fields, fieldValues, patch, ALL_COLUMNS)
    ensures Expresses(
              Statement(fields + [SetUpdatedAtNow], |fields| + 1, |fields| + 2),
              fieldValues + [Text(id), Text(userId)], id, userId, patch)
  {
    var stmt := Statement(fields + [SetUpdatedAtNow], |fields| + 1, |fields| + 2);
    var values := fieldValues + [Text(id), Text(userId)];
    forall column, n | Assigns(stmt, column, n)
      ensures 1 <= n <= |values| - 2 && Some(values[n - 1]) == GivenValue(patch, column)
    {
      var i :| 0 <= i < |stmt.sets| && stmt.sets[i] == SetParam(column, n);
      assert fields[i].index == n;
    }
    forall column | GivenValue(patch, column).Some? ensures exists n :: Assigns(stmt, column, n) {
      assert column in ALL_COLUMNS;
      var i :| 0 <= i < |fields| && fields[i].column == column;
      assert stmt.sets[i] == SetParam(column, i + 1);
      assert Assigns(stmt, column, i + 1);
    }
    assert stmt.sets[|fields|] == SetUpdatedAtNow;
  }

  // ---- executing a statement ----

  /** One assignment on a row; a missing placeholder or a value of the wrong type fails. */
  function Assign(row: VaultItem, a: Assignment, values: seq<SqlValue>, now: int): Option<VaultItem> {
    match a
    case SetUpdatedAtNow => Some(row.(updatedAt := now))
    case SetParam(column, n) =>
      if !(1 <= n <= |values|) then None
      else
        match (column, values[n - 1])
        case (CiphertextColumn, Blob(b)) => Some(row.(ciphertext := b))
        case (DekVersionColumn, Integer(k)) => Some(row.(dekVersion := k))
        case (ItemVersionColumn, Integer(k)) => Some(row.(itemVersion := k))
        case (ConflictOfColumn, Text(t)) => Some(row.(conflictOf := Some(t)))
        case _ => None
  }

  function AssignAll(row: VaultItem, sets: seq<Assignment>, values: seq<SqlValue>, now: int): Option<VaultItem> {
    if sets == [] then Some(row)
    else
      var before := AssignAll(row, sets[..|sets| - 1], values, now);
      if before.None? then None else Assign(before.value, sets[|sets| - 1], values, now)
  }

  ghost predicate Matches(row: VaultItem, stmt: Statement, values: seq<SqlValue>) {
    && 1 <= stmt.idParam <= |values| && values[stmt.idParam - 1] == Text(row.id)
    && 1 <= stmt.userIdParam <= |values| && values[stmt.userIdParam - 1] == Text(row.userId)
  }

  /** Every row of the table, after the statement: rows that do not match stay. */
  ghost function Execute(rows: map<string, VaultItem>, stmt: Statement, values: seq<SqlValue>, now: int)
    : map<string, Option<VaultItem>>
  {
    map id | id in rows ::
      if Matches(rows[id], stmt, values) then AssignAll(rows[id], stmt.sets, values, now) else Some(rows[id])
  }

  // ---- the merge it should mean ----

  /** The row with the given columns replaced. */
  function Patched(row: VaultItem, patch: Patch, now: int): VaultItem {
    VaultItem(
      row.id, row.userId,
      if patch.ciphertext.Given? then patch.ciphertext.value else row.ciphertext,
      if patch.dekVersion.Given? then patch.dekVersion.value else row.dekVersion,
      if patch.itemVersion.Given? then patch.itemVersion.value else row.itemVersion,
      if patch.conflictOf.Given? then Some(patch.conflictOf.value) else row.conflictOf,
      now)
  }

  /** What the columns hold after a prefix of the assignments. */
  ghost predicate PartlyPatched(row: VaultItem, row': VaultItem, done: seq<Assignment>, patch: Patch, now: int) {
    && row'.id == row.id && row'.userId == row.userId
    && row'.ciphertext == (if HasColumn(done, CiphertextColumn) then Patched(row, patch, now) else row).ciphertext
    && row'.dekVersion == (if HasColumn(done, DekVersionColumn) then Patched(row, patch, now) else row).dekVersion
    && row'.itemVersion == (if HasColumn(done, ItemVersionColumn) then Patched(row, patch, now) else row).itemVersion
    && row'.conflictOf == (if HasColumn(done, ConflictOfColumn) then Patched(row, patch, now) else row).conflictOf
    && row'.updatedAt == (if SetUpdatedAtNow in done then now else row.updatedAt)
  }

  lemma HasColumnAppend(done: seq<Assignment>, a: Assignment, column: Column)
    ensures HasColumn(done + [a], column) <==> HasColumn(done, column) || (a.SetParam? && a.column == column)
  {
    if a.SetParam? && a.column == column {
      assert SetParam(column, a.index) in done + [a];
    } else if n :| SetParam(column, n) in done {
      assert SetParam(column, n) in done + [a];
    }
  }

  ghost predicate HasColumn(sets: seq<Assignment>, column: Column) {
    exists n :: SetParam(column, n) in sets
  }

  lemma AssignmentPatches(
      row: VaultItem, row': VaultItem, done: seq<Assignment>, a: Assignment, values: seq<SqlValue>,
      patch: Patch, now: int)
    requires PartlyPatched(row, row', done, patch, now)
    requires a.SetParam? ==> 1 <= a.index <= |values| && Some(values[a.index - 1]) == GivenValue(patch, a.column)
    ensures Assign(row', a, values, now).Some?
    ensures PartlyPatched(row, Assign(row', a, values, now).value, done + [a], patch, now)
  {
    forall column
      ensures HasColumn(done + [a], column) <==> HasColumn(done, column) || (a.SetParam? && a.column == column)
    {
      HasColumnAppend(done, a, column);
    }
  }

  lemma {:induction false} AssignmentsPatch(
      row: VaultItem, sets: seq<Assignment>, values: seq<SqlValue>, patch: Patch, now: int)
    requires forall i :: 0 <= i < |sets| && sets[i].SetParam? ==>
               1 <= sets[i].index <= |values| && Some(values[sets[i].index - 1]) == GivenValue(patch, sets[i].column)
    ensures var row' := AssignAll(row, sets, values, now);
            row'.Some? && PartlyPatched(row, row'.value, sets, patch, now)
  {
    if sets != [] {
      var done, a := sets[..|sets| - 1], sets[|sets| - 1];
      AssignmentsPatch(row, done, values, patch, now);
      AssignmentPatches(row, AssignAll(row, done, values, now).value, done, a, values, patch, now);
      assert sets == done + [a];
    }
  }

  /**
   * Executing a statement that expresses the patch replaces exactly the given
   * columns of exactly the row with that id and user, and fails nowhere.
   */
  lemma ExecutionPatches(
      rows: map<string, VaultItem>, stmt: Statement, values: seq<SqlValue>, id: string, userId: string,
      patch: Patch, now: int, key: string)
    requires Expresses(stmt, values, id, userId, patch)
    requires key in rows && rows[key].id == key
    ensures Execute(rows, stmt, values, now)[key]
         == Some(if key == id && rows[key].userId == userId then Patched(rows[key], patch, now) else rows[key])
  {
    if Matches(rows[key], stmt, values) {
      forall i | 0 <= i < |stmt.sets| && stmt.sets[i].SetParam?
        ensures 1 <= stmt.sets[i].index <= |values|
        ensures Some(values[stmt.sets[i].index - 1]) == GivenValue(patch, stmt.sets[i].column)
      {
        assert Assigns(stmt, stmt.sets[i].column, stmt.sets[i].index);
      }
      AssignmentsPatch(rows[key], stmt.sets, values, patch, now);
      forall c ensures HasColumn(stmt.sets, c) <==> GivenValue(patch, c).Some? {
        if k :| SetParam(c, k) in stmt.sets { assert Assigns(stmt, c, k); }
        if k :| Assigns(stmt, c, k) { assert SetParam(c, k) in stmt.sets; }
      }
    }
  }

  // ---- against the in-memory `{ ...record, ...patch }` ----

  /** A record as a JavaScript object, whose properties may have become `undefined`. */
  datatype JsItem = JsItem(
    id: string, userId: string, ciphertext: Option<Bytes>, dekVersion: Option<int>, itemVersion: Option<int>,
    conflictOf: Option<string>, updatedAt: int)

  function AsJs(item: VaultItem): JsItem {
    JsItem(item.id, item.userId,
           Some(item.ciphertext), Some(item.dekVersion), Some(item.itemVersion), item.conflictOf, item.updatedAt)
  }

  function Over<T>(old_: Option<T>, field: Field<T>): Option<T> {
    match field
    case Absent => old_
    case Undefined => None
    case Given(v) => Some(v)
  }

  function Spread(item: VaultItem, patch: Patch, now: int): JsItem {
    var js := AsJs(item);
    JsItem(item.id, item.userId,
           Over(js.ciphertext, patch.ciphertext), Over(js.dekVersion, patch.dekVersion),
           Over(js.itemVersion, patch.itemVersion), Over(js.conflictOf, patch.conflictOf), now)
  }

  /**
   * The statement means the same as the in-memory merge exactly when the patch
   * has no property that is present but `undefined` over a field that holds
   * something: the merge erases such a field, the statement leaves it alone.
   */
  lemma SqlMeansSpread(
      rows: map<string, VaultItem>, stmt: Statement, values: seq<SqlValue>, id: string, patch: Patch, now: int)
    requires id in rows && rows[id].id == id
    requires Expresses(stmt, values, id, rows[id].userId, patch)
    ensures var row' := Execute(rows, stmt, values, now)[id];
            && row'.Some?
            && (AsJs(row'.value) == Spread(rows[id], patch, now) <==>
                  && !patch.ciphertext.Undefined? && !patch.dekVersion.Undefined? && !patch.itemVersion.Undefined?
                  && (patch.conflictOf.Undefined? ==> rows[id].conflictOf.None?))
  {
    ExecutionPatches(rows, stmt, values, id, rows[id].userId, patch, now, id);
  }

  /**
   * For every patch that leaves a well-formed record, the row after the
   * statement is the record the in-memory `update` stores, unless the patch
   * takes back a fork parent (`conflictOf` present but undefined).
   */
  lemma StatementAgreesWithUpdate(
      t: Table, stmt: Statement, values: seq<SqlValue>, id: string, userId: string, patch: Patch, now: int)
    requires id in t.entries && t.entries[id].userId == userId && t.entries[id].id == id && Storable(patch)
    requires Expresses(stmt, values, id, userId, patch)
    ensures var record := t.entries[id];
            Execute(t.entries, stmt, values, now)[id] == Some(Merged(record, patch, now))
            <==> (patch.conflictOf.Undefined? ==> record.conflictOf.None?)
  {
    ExecutionPatches(t.entries, stmt, values, id, userId, patch, now, id);
  }

  /** The statement returns a row exactly when the user has the item: it fails where the in-memory `update` does. */
  lemma StatementFindsRow(
      t: Table, stmt: Statement, values: seq<SqlValue>, id: string, userId: string, patch: Patch)
    requires forall key :: key in t.entries ==> t.entries[key].id == key
    requires Expresses(stmt, values, id, userId, patch)
    ensures (exists key :: key in t.entries && Matches(t.entries[key], stmt, values))
       <==> id in t.entries && t.entries[id].userId == userId
  {
    if id in t.entries && t.entries[id].userId == userId {
      assert Matches(t.entries[id], stmt, values);
    }
  }
}
