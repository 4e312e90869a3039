/** `QuickBooks_Status_Report::_createForMirror` and `_fetchSomeField`: for
    every object the mirror imports, the mirrored rows that carry an error
    number, filed under the object's pretty name. */
module MirrorReport {
  import opened Php
  import opened Collaborators
  import opened ErrorDescriptions
  import opened Names

  /** `_fetchSomeField`: the value of the first listed field that is set in
      the row, and null when none is. */
  function FirstSet(row: Row, fields: seq<string>): (r: Cell)
    ensures r == Null <==> forall i :: 0 <= i < |fields| ==> !IsSet(row, fields[i])
    ensures r != Null ==> exists i ::
      && 0 <= i < |fields| && IsSet(row, fields[i]) && r == row[fields[i]]
      && forall j :: 0 <= j < i ==> !IsSet(row, fields[j])
  {
    if |fields| == 0 then Null
    else if IsSet(row, fields[0]) then row[fields[0]]
    else
      var r := FirstSet(row, fields[1..]);
      assert forall i :: 1 <= i < |fields| ==> fields[i] == fields[1..][i - 1];
      if r != Null then
        var i :| 0 <= i < |fields[1..]| && IsSet(row, fields[1..][i]) && r == row[fields[1..][i]]
          && forall j :: 0 <= j < i ==> !IsSet(row, fields[1..][j]);
        assert forall j :: 0 <= j < i + 1 ==> !IsSet(row, fields[j]) by {
          forall j | 0 <= j < i + 1 ensures !IsSet(row, fields[j]) {
            if j > 0 { assert fields[j] == fields[1..][j - 1]; }
          }
        }
        r
      else r
  }

  /** The loop of lines 311-317 with its early return. */
  method FetchSomeField(row: Row, fields: seq<string>) returns (value: Cell)
    ensures value == FirstSet(row, fields)
  {
    for k := 0 to |fields|
      invariant FirstSet(row, fields) == FirstSet(row, fields[k..])
    {
      assert fields[k..][1..] == fields[k + 1..];
      if IsSet(row, fields[k]) {
        return row[fields[k]];
      }
    }
    return Null;
  }

  const IdentFields: seq<string> := ["ListID", "TxnID"]
  const NameFields: seq<string> := ["FullName", "Name", "RefNumber"]
  const DateFields: seq<string> := ["TxnDate"]
  const EntityFields: seq<string> := ["Customer_FullName", "Vendor_FullName"]

  /** The driver's names for the mirror's bookkeeping columns (the SQL id,
      the error number, the error message and the dequeue time). */
  datatype Columns = Columns(id: string, errorNumber: string, errorMessage: string, dequeueTime: string)

  /** What the mirror report reads from the SQL schema: the import actions
      in listing order, the object each action imports, and the table and
      primary-key field each object is mirrored into (empty strings when
      there is none). */
  datatype Schema = Schema(
    imports: seq<string>,
    objectOf: string -> string,
    primaryKey: string -> (string, string),
    cols: Columns)

  /** The arguments of `create` that the mirror report uses. */
  datatype MirrorRequest = MirrorRequest(dateFrom: Cell, dateTo: Cell, full: bool, restrict: seq<string>)

  /** One row of the mirror report, in the order of lines 290-301. */
  datatype MirrorRow = MirrorRow(
    sqlId: Cell, ident: Cell, name: Cell, txnDate: Cell, entity: Cell,
    errorNumber: Cell, errorMessage: Cell, description: string,
    dequeued: Cell, record: Option<Row>)

  type Entries = seq<(Key, seq<MirrorRow>)>

  function MirrorRecord(row: Row, cols: Columns, full: bool): MirrorRow {
    MirrorRow(
      Get(row, cols.id),
      FirstSet(row, IdentFields), FirstSet(row, NameFields),
      FirstSet(row, DateFields), FirstSet(row, EntityFields),
      Get(row, cols.errorNumber), Get(row, cols.errorMessage),
      Describe(Get(row, cols.errorNumber), Get(row, cols.errorMessage)),
      Get(row, cols.dequeueTime),
      if full then Some(row) else None)
  }

  /** A mirrored row carries the duplicate-name explanation exactly when its
      error number is the text "3100", and the full row exactly when it was
      asked for. */
  lemma MirrorRecordFacts(row: Row, cols: Columns, full: bool)
    ensures MirrorRecord(row, cols, full).description == DuplicateName <==> Get(row, cols.errorNumber) == Text("3100")
    ensures MirrorRecord(row, cols, full).description != DuplicateName ==> MirrorRecord(row, cols, full).description == ""
    ensures MirrorRecord(row, cols, full).record.Some? <==> full
  {
  }

  /** A date bound takes part in the query only when `strtotime` reads it
      as a positive timestamp. */
  function Bound(clock: Clock, date: Cell): Option<int> {
    match clock.strtotime(date)
    case Some(t) => if t > 0 then Some(t) else None
    case None => None
  }

  /** `$do_restrict` and `in_array`: every object is reported when the
      restriction list is empty. */
  predicate Included(restrict: seq<string>, obj: string) {
    |restrict| == 0 || obj in restrict
  }

  /** The report key of an object: its pretty name as an array offset. */
  function EntryKey(obj: string): Key {
    KeyOf(Text(PrettyNameOf(obj)))
  }

  function ObjectAt(schema: Schema, n: nat): string
    requires n < |schema.imports|
  {
    schema.objectOf(schema.imports[n])
  }

  /** The rows reported for one object: none when its table or field is
      empty, otherwise one per row the query for its table returns. */
  function ErrorRows(driver: Driver, clock: Clock, schema: Schema, req: MirrorRequest, obj: string): seq<MirrorRow> {
    var tableAndField := schema.primaryKey(obj);
    if Empty(tableAndField.0) || Empty(tableAndField.1) then []
    else
      var rows := driver.fetchRows(RowQuery(tableAndField.0, Bound(clock, req.dateFrom), Bound(clock, req.dateTo)));
      seq(|rows|, i requires 0 <= i < |rows| => MirrorRecord(rows[i], schema.cols, req.full))
  }

  /** The report after the first `n` import actions. */
  function MirrorUpTo(driver: Driver, clock: Clock, schema: Schema, req: MirrorRequest, n: nat): Entries
    requires n <= |schema.imports|
  {
    if n == 0 then []
    else
      var before := MirrorUpTo(driver, clock, schema, req, n - 1);
      var obj := ObjectAt(schema, n - 1);
      if Included(req.restrict, obj) then
        Assign(before, EntryKey(obj), ErrorRows(driver, clock, schema, req, obj))
      else before
  }

  /** The action at index `n` adds its key when it is included, and no
      other key. */
  lemma MirrorKeysStep(driver: Driver, clock: Clock, schema: Schema, req: MirrorRequest, n: nat, k: Key)
    requires n < |schema.imports|
    ensures k in KeysOf(MirrorUpTo(driver, clock, schema, req, n + 1))
      <==> k in KeysOf(MirrorUpTo(driver, clock, schema, req, n))
           || (Included(req.restrict, ObjectAt(schema, n)) && k == EntryKey(ObjectAt(schema, n)))
  {
    MirrorStep(driver, clock, schema, req, n);
    var obj := ObjectAt(schema, n);
    if Included(req.restrict, obj) {
      AssignKeys(MirrorUpTo(driver, clock, schema, req, n), EntryKey(obj), ErrorRows(driver, clock, schema, req, obj));
    }
  }

  /** Some included object among the first `n` has the pretty name `k`. */
  ghost predicate NamedAmong(schema: Schema, req: MirrorRequest, n: nat, k: Key)
    requires n <= |schema.imports|
  {
    exists i :: 0 <= i < n && Included(req.restrict, ObjectAt(schema, i)) && EntryKey(ObjectAt(schema, i)) == k
  }

  lemma NamedAmongStep(schema: Schema, req: MirrorRequest, n: nat, k: Key)
    requires n < |schema.imports|
    ensures NamedAmong(schema, req, n + 1, k)
      <==> NamedAmong(schema, req, n, k) || (Included(req.restrict, ObjectAt(schema, n)) && k == EntryKey(ObjectAt(schema, n)))
  {
    if NamedAmong(schema, req, n + 1, k) {
      var i :| 0 <= i < n + 1 && Included(req.restrict, ObjectAt(schema, i)) && EntryKey(ObjectAt(schema, i)) == k;
      if i < n {
        assert NamedAmong(schema, req, n, k);
      }
    }
    if NamedAmong(schema, req, n, k) {
      var i :| 0 <= i < n && Included(req.restrict, ObjectAt(schema, i)) && EntryKey(ObjectAt(schema, i)) == k;
      assert 0 <= i < n + 1;
    }
  }

  /** The keys of the report are exactly the pretty names of the included
      objects. */
  lemma {:induction false} MirrorKeys(driver: Driver, clock: Clock, schema: Schema, req: MirrorRequest, n: nat, k: Key)
    requires n <= |schema.imports|
    ensures k in KeysOf(MirrorUpTo(driver, clock, schema, req, n)) <==> NamedAmong(schema, req, n, k)
  {
    if n == 0 {
      assert MirrorUpTo(driver, clock, schema, req, 0) == [];
    } else {
      var m := n - 1;
      MirrorKeys(driver, clock, schema, req, m, k);
      MirrorKeysStep(driver, clock, schema, req, m, k);
      NamedAmongStep(schema, req, m, k);
    }
  }

  /** No key appears twice in the report. */
  lemma {:induction false} MirrorDistinct(driver: Driver, clock: Clock, schema: Schema, req: MirrorRequest, n: nat)
    requires n <= |schema.imports|
    ensures DistinctKeys(MirrorUpTo(driver, clock, schema, req, n))
  {
    if n > 0 {
      MirrorDistinct(driver, clock, schema, req, n - 1);
      MirrorStep(driver, clock, schema, req, n - 1);
      var obj := ObjectAt(schema, n - 1);
      if Included(req.restrict, obj) {
        AssignDistinct(MirrorUpTo(driver, clock, schema, req, n - 1), EntryKey(obj), ErrorRows(driver, clock, schema, req, obj));
      }
    }
  }

  function EntryAt(driver: Driver, clock: Clock, schema: Schema, req: MirrorRequest, i: nat): (Key, seq<MirrorRow>)
    requires i < |schema.imports|
  {
    (EntryKey(ObjectAt(schema, i)), ErrorRows(driver, clock, schema, req, ObjectAt(schema, i)))
  }

  /** The action at index `n` keeps an entry whose key differs from its own. */
  lemma MirrorKept(driver: Driver, clock: Clock, schema: Schema, req: MirrorRequest, n: nat, e: (Key, seq<MirrorRow>))
    requires n < |schema.imports|
    requires HasEntry(MirrorUpTo(driver, clock, schema, req, n), e)
    requires Included(req.restrict, ObjectAt(schema, n)) ==> EntryKey(ObjectAt(schema, n)) != e.0
    ensures HasEntry(MirrorUpTo(driver, clock, schema, req, n + 1), e)
  {
    var obj := ObjectAt(schema, n);
    MirrorStep(driver, clock, schema, req, n);
    AssignKeepsIf(MirrorUpTo(driver, clock, schema, req, n), MirrorUpTo(driver, clock, schema, req, n + 1), Included(req.restrict, obj),
                  EntryKey(obj), ErrorRows(driver, clock, schema, req, obj), e);
  }

  /** The action at index `n`, when included, puts its entry in. */
  lemma MirrorAssigned(driver: Driver, clock: Clock, schema: Schema, req: MirrorRequest, n: nat)
    requires n < |schema.imports| && Included(req.restrict, ObjectAt(schema, n))
    ensures HasEntry(MirrorUpTo(driver, clock, schema, req, n + 1), EntryAt(driver, clock, schema, req, n))
  {
    var obj := ObjectAt(schema, n);
    MirrorStep(driver, clock, schema, req, n);
    AssignHolds(MirrorUpTo(driver, clock, schema, req, n), EntryKey(obj), ErrorRows(driver, clock, schema, req, obj));
  }

  /** An included object whose pretty name no later included object shares
      has its own rows in the report: a later object with the same pretty
      name replaces the rows. */
  lemma {:induction false} MirrorLastWins(driver: Driver, clock: Clock, schema: Schema, req: MirrorRequest, n: nat, i: nat)
    requires i < n <= |schema.imports|
    requires Included(req.restrict, ObjectAt(schema, i))
    requires forall j :: i < j < n && Included(req.restrict, ObjectAt(schema, j)) ==>
      EntryKey(ObjectAt(schema, j)) != EntryKey(ObjectAt(schema, i))
    ensures HasEntry(MirrorUpTo(driver, clock, schema, req, n), EntryAt(driver, clock, schema, req, i))
  {
    if i == n - 1 {
      MirrorAssigned(driver, clock, schema, req, i);
    } else {
      MirrorLastWins(driver, clock, schema, req, n - 1, i);
      MirrorKept(driver, clock, schema, req, n - 1, EntryAt(driver, clock, schema, req, i));
    }
  }

  /** The object at index `i` is included and has the pretty name `k`. */
  predicate NamedAt(schema: Schema, req: MirrorRequest, i: nat, k: Key)
    requires i < |schema.imports|
  {
    Included(req.restrict, ObjectAt(schema, i)) && EntryKey(ObjectAt(schema, i)) == k
  }

  /** The index of the first included object among the first `n` whose
      pretty name is `k`, or -1 when there is none. */
  function FirstNamed(schema: Schema, req: MirrorRequest, n: nat, k: Key): (f: int)
    requires n <= |schema.imports|
    ensures -1 <= f < n
  {
    if n == 0 then -1
    else
      var f := FirstNamed(schema, req, n - 1, k);
      if f >= 0 then f
      else if NamedAt(schema, req, n - 1, k) then n - 1
      else -1
  }

  /** `FirstNamed` is the least index of an included object named `k`. */
  lemma {:induction false} FirstNamedLeast(schema: Schema, req: MirrorRequest, n: nat, k: Key)
    requires n <= |schema.imports|
    ensures var f := FirstNamed(schema, req, n, k);
      && (f >= 0 ==> NamedAt(schema, req, f, k))
      && forall i :: 0 <= i < n && (f < 0 || i < f) ==> !NamedAt(schema, req, i, k)
  {
    if n > 0 {
      var m := n - 1;
      FirstNamedLeast(schema, req, m, k);
      var before := FirstNamed(schema, req, m, k);
      var f := FirstNamed(schema, req, n, k);
      assert before >= 0 ==> f == before;
      forall i | 0 <= i < n && (f < 0 || i < f)
        ensures !NamedAt(schema, req, i, k)
      {
        if i < m {
          assert before < 0 || i < before;
        }
      }
    }
  }

  /** Some included object is named `k` exactly when a first one is. */
  lemma FirstNamedAmong(schema: Schema, req: MirrorRequest, n: nat, k: Key)
    requires n <= |schema.imports|
    ensures FirstNamed(schema, req, n, k) >= 0 <==> NamedAmong(schema, req, n, k)
  {
    FirstNamedLeast(schema, req, n, k);
    var f := FirstNamed(schema, req, n, k);
    if f >= 0 {
      assert NamedAt(schema, req, f, k);
    } else if NamedAmong(schema, req, n, k) {
      var i :| 0 <= i < n && Included(req.restrict, ObjectAt(schema, i)) && EntryKey(ObjectAt(schema, i)) == k;
      assert NamedAt(schema, req, i, k);
      assert false;
    }
  }

  /** A key is in the report exactly when some included object carries it. */
  lemma MirrorKeyNamed(driver: Driver, clock: Clock, schema: Schema, req: MirrorRequest, n: nat, k: Key)
    requires n <= |schema.imports|
    ensures k in KeysOf(MirrorUpTo(driver, clock, schema, req, n)) <==> FirstNamed(schema, req, n, k) >= 0
  {
    MirrorKeys(driver, clock, schema, req, n, k);
    FirstNamedAmong(schema, req, n, k);
  }

  /** An action whose key is already present leaves every key in place. */
  lemma MirrorKeysInPlace(driver: Driver, clock: Clock, schema: Schema, req: MirrorRequest, n: nat)
    requires n < |schema.imports|
    requires var obj := ObjectAt(schema, n);
      !Included(req.restrict, obj) || EntryKey(obj) in KeysOf(MirrorUpTo(driver, clock, schema, req, n))
    ensures var before := MirrorUpTo(driver, clock, schema, req, n);
      var after := MirrorUpTo(driver, clock, schema, req, n + 1);
      |after| == |before| && forall i :: 0 <= i < |before| ==> after[i].0 == before[i].0
  {
    MirrorStep(driver, clock, schema, req, n);
  }

  /** The entries of the report come in the order in which their pretty
      names first occur among the included objects, in listing order. */
  lemma {:induction false} MirrorOrder(driver: Driver, clock: Clock, schema: Schema, req: MirrorRequest, n: nat, p: nat, q: nat)
    requires n <= |schema.imports|
    requires p < q < |MirrorUpTo(driver, clock, schema, req, n)|
    ensures var report := MirrorUpTo(driver, clock, schema, req, n);
      0 <= FirstNamed(schema, req, n, report[p].0) < FirstNamed(schema, req, n, report[q].0)
  {
    var m := n - 1;
    var before := MirrorUpTo(driver, clock, schema, req, m);
    var after := MirrorUpTo(driver, clock, schema, req, n);
    var obj := ObjectAt(schema, m);
    var key := EntryKey(obj);
    MirrorStep(driver, clock, schema, req, m);
    if q < |before| {
      if Included(req.restrict, obj) && key !in KeysOf(before) {
        assert after == before + [(key, ErrorRows(driver, clock, schema, req, obj))];
      } else {
        MirrorKeysInPlace(driver, clock, schema, req, m);
      }
      MirrorOrder(driver, clock, schema, req, m, p, q);
    } else {
      assert Included(req.restrict, obj) && key !in KeysOf(before);
      assert after == before + [(key, ErrorRows(driver, clock, schema, req, obj))];
      assert after[q].0 == key;
      MirrorKeyNamed(driver, clock, schema, req, m, key);
      assert before[p].0 in KeysOf(before);
      MirrorKeyNamed(driver, clock, schema, req, m, before[p].0);
    }
  }

  /** The report of line 306 after every import action. */
  function MirrorOf(driver: Driver, clock: Clock, schema: Schema, req: MirrorRequest): Entries {
    MirrorUpTo(driver, clock, schema, req, |schema.imports|)
  }

  lemma MirrorStep(driver: Driver, clock: Clock, schema: Schema, req: MirrorRequest, n: nat)
    requires n < |schema.imports|
    ensures var obj := ObjectAt(schema, n);
      MirrorUpTo(driver, clock, schema, req, n + 1)
      == if Included(req.restrict, obj)
         then Assign(MirrorUpTo(driver, clock, schema, req, n), EntryKey(obj), ErrorRows(driver, clock, schema, req, obj))
         else MirrorUpTo(driver, clock, schema, req, n)
  {
  }

  /** One pass of the loop of lines 241-303 over an included object. */
  lemma MirrorIteration(driver: Driver, clock: Clock, schema: Schema, req: MirrorRequest, n: nat,
                        report: Entries, pretty: string, rows: seq<MirrorRow>)
    requires n < |schema.imports| && Included(req.restrict, ObjectAt(schema, n))
    requires report == MirrorUpTo(driver, clock, schema, req, n)
    requires pretty == PrettyNameOf(ObjectAt(schema, n))
    requires rows == ErrorRows(driver, clock, schema, req, ObjectAt(schema, n))
    ensures Assign(report, KeyOf(Text(pretty)), rows) == MirrorUpTo(driver, clock, schema, req, n + 1)
  {
    MirrorStep(driver, clock, schema, req, n);
  }

  /** The record of lines 290-301 for one fetched row. */
  method MirrorRecordOf(arr: Row, cols: Columns, full: bool) returns (row: MirrorRow)
    ensures row == MirrorRecord(arr, cols, full)
  {
    var record: Option<Row> := None;
    if full {
      record := Some(arr);
    }
    var ident := FetchSomeField(arr, IdentFields);
    var name := FetchSomeField(arr, NameFields);
    var txnDate := FetchSomeField(arr, DateFields);
    var entity := FetchSomeField(arr, EntityFields);
    var errorNumber := Get(arr, cols.errorNumber);
    var errorMessage := Get(arr, cols.errorMessage);
    row := MirrorRow(Get(arr, cols.id), ident, name, txnDate, entity,
                     errorNumber, errorMessage, Describe(errorNumber, errorMessage),
                     Get(arr, cols.dequeueTime), record);
  }

  /** The rows of one object, as the query and fetch loop of lines 279-302 build them. */
  method FetchErrorRows(driver: Driver, clock: Clock, schema: Schema, req: MirrorRequest, obj: string)
    returns (rows: seq<MirrorRow>)
    ensures rows == ErrorRows(driver, clock, schema, req, obj)
  {
    rows := [];
    var tableAndField := schema.primaryKey(obj);
    if !Empty(tableAndField.0) && !Empty(tableAndField.1) {
      var fetched := driver.fetchRows(RowQuery(tableAndField.0, Bound(clock, req.dateFrom), Bound(clock, req.dateTo)));
      rows := MirrorRecords(fetched, schema.cols, req.full);
    }
  }

  /** The `while ($arr = $Driver->fetch($res))` loop of line 282: one report row per
      fetched row, in order. */
  method MirrorRecords(fetched: seq<Row>, cols: Columns, full: bool) returns (rows: seq<MirrorRow>)
    ensures |rows| == |fetched|
    ensures forall m :: 0 <= m < |fetched| ==> rows[m] == MirrorRecord(fetched[m], cols, full)
  {
    rows := [];
    var k := 0;
    while k < |fetched|
      invariant k <= |fetched| && |rows| == k
      invariant forall m :: 0 <= m < k ==> rows[m] == MirrorRecord(fetched[m], cols, full)
    {
      var record := MirrorRecordOf(fetched[k], cols, full);
      rows := rows + [record];
      k := k + 1;
    }
  }

  method CreateForMirror(driver: Driver, clock: Clock, schema: Schema, req: MirrorRequest)
    returns (report: Entries)
    ensures report == MirrorOf(driver, clock, schema, req)
  {
    report := [];
    var doRestrict := |req.restrict| > 0;
    for n := 0 to |schema.imports|
      invariant report == MirrorUpTo(driver, clock, schema, req, n)
    {
      var obj := schema.objectOf(schema.imports[n]);
      if doRestrict && obj !in req.restrict {
        MirrorStep(driver, clock, schema, req, n);
        continue;
      }
      var pretty := PrettyName(obj);
      var rows := FetchErrorRows(driver, clock, schema, req, obj);
      MirrorIteration(driver, clock, schema, req, n, report, pretty, rows);
      report := Assign(report, KeyOf(Text(pretty)), rows);
    }
  }
}
