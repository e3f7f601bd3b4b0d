/** Bringing source rows into a dataset by label: a snapshot, minimal updates
    guarded by the snapshot's versions, and one bulk insert. */
module EntityUpsert {
  import opened Decimals
  import opened Text
  import opened EntityStore

  type SourceRow = map<string, string>

  /** Columns of the table that hold no property: the entity's id, and its
      system record with the version in it. */
  const RESERVED: set<string> := {"__id", "__system"}

  function IdText(uuid: nat): string {
    Digits(uuid, 1)
  }

  function SystemText(version: nat): string {
    "{'version': " + Digits(version, 1) + "}"
  }

  /** The text of a reserved column, as `str` gives it. */
  function ReservedText(e: Entity, key: string): string {
    if key == "__id" then IdText(e.uuid) else SystemText(e.version)
  }

  datatype Cell = Missing | Null | Holds(text: string)

  function CellOf(e: Entity, key: string): Cell {
    if key in RESERVED then Holds(ReservedText(e, key))
    else if key !in e.data then Missing
    else if e.data[key].None? then Null
    else Holds(e.data[key].value)
  }

  /** Values are compared as text, where a null reads "None". */
  predicate Differs(value: string, cell: Cell) {
    match cell
    case Missing => true
    case Null => value != "None"
    case Holds(text) => value != text
  }

  /** The keys to send so that the entity agrees with the source row. */
  function UpdateData(row: SourceRow, e: Entity): map<string, string> {
    map k | k in row && k != "label" && Differs(row[k], CellOf(e, k)) :: row[k]
  }

  /** The entity has the column, and as text it reads like the value: an id
      and a version record as their digits, a null as "None". */
  ghost predicate ReadsAlike(value: string, e: Entity, key: string) {
    if key == "__id" then value == IdText(e.uuid)
    else if key == "__system" then value == "{'version': " + Digits(e.version, 1) + "}"
    else key in e.data && value == if e.data[key].None? then "None" else e.data[key].value
  }

  method GetEntityUpdateData(row: SourceRow, e: Entity) returns (updateData: map<string, string>)
    ensures updateData == UpdateData(row, e)
    ensures forall k :: k in updateData <==> k in row && k != "label" && !ReadsAlike(row[k], e, k)
    ensures forall k :: k in updateData ==> updateData[k] == row[k]
  {
    updateData := map[];
    var todo := row.Keys;
    while todo != {}
      invariant todo <= row.Keys
      invariant updateData == map k | k in row.Keys - todo && k != "label" && Differs(row[k], CellOf(e, k)) :: row[k]
      decreases todo
    {
      var key :| key in todo;
      todo := todo - {key};
      if key == "label" { continue; }
      if Differs(row[key], CellOf(e, key)) {
        updateData := updateData[key := row[key]];
      }
    }
  }

  function NameOf(row: SourceRow): Option<string> {
    if "label" in row && row["label"] != "" then Some(row["label"]) else None
  }

  /** Later table rows win when labels repeat. */
  function LastNamed(rows: seq<Entity>, name: string): (r: Option<nat>)
    ensures r.Some? ==>
              && r.value < |rows| && rows[r.value].name == name
              && forall i :: r.value < i < |rows| ==> rows[i].name != name
    ensures r.None? ==> forall i :: 0 <= i < |rows| ==> rows[i].name != name
  {
    if rows == [] then None
    else if rows[|rows| - 1].name == name then Some(|rows| - 1)
    else LastNamed(rows[..|rows| - 1], name)
  }

  /** The stored entity a source row is matched with. */
  function Target(snap: seq<Entity>, row: SourceRow): (r: Option<nat>)
    ensures r.Some? ==> r.value < |snap| && NameOf(row) == Some(snap[r.value].name)
  {
    if NameOf(row).None? then None else LastNamed(snap, NameOf(row).value)
  }

  // ---- a run, with the other writers' operations before each request ----

  /** One update request, with the store it met. */
  datatype Call = Call(uuid: nat, payload: map<string, string>, before: Store, reply: Reply)

  datatype Progress = Progress(store: Store, toInsert: seq<SourceRow>, calls: seq<Call>, failed: bool)

  function OpsAt(foreign: seq<seq<ForeignOp>>, i: nat): seq<ForeignOp> {
    if i < |foreign| then foreign[i] else []
  }

  /** One source row; an error other than a version conflict ends the loop,
      while the other writers go on. */
  function RowStep(snap: seq<Entity>, p: Progress, row: SourceRow, ops: seq<ForeignOp>): Progress {
    var store := ForeignAll(p.store, ops);
    if p.failed || NameOf(row).None? then p.(store := store)
    else
      var target := Target(snap, row);
      if target.None? then p.(store := store, toInsert := p.toInsert + [row])
      else
        var e := snap[target.value];
        var payload := UpdateData(row, e);
        if payload == map[] then p.(store := store)
        else
          var reply := UpdateReply(store, e.uuid, e.version);
          p.(store := UpdateStore(store, e.uuid, e.name, payload, e.version),
             calls := p.calls + [Call(e.uuid, payload, store, reply)],
             failed := reply == NotFound)
  }

  function After(start: Store, rows: seq<SourceRow>, foreign: seq<seq<ForeignOp>>, n: nat): Progress
    requires n <= |rows|
  {
    if n == 0 then Progress(start, [], [], false)
    else RowStep(start.rows, After(start, rows, foreign, n - 1), rows[n - 1], OpsAt(foreign, n - 1))
  }

  /** The whole upsert; the snapshot is the table as it is at the start. */
  function Upsert(start: Store, rows: seq<SourceRow>, foreign: seq<seq<ForeignOp>>): Progress {
    var p := After(start, rows, foreign, |rows|);
    var store := ForeignAll(p.store, OpsAt(foreign, |rows|));
    p.(store := if p.failed then store else InsertAll(store, p.toInsert))
  }

  class Dataset {
    var store: Store

    constructor (store: Store)
      ensures this.store == store
    {
      this.store := store;
    }

    /** The server's side of an update request. */
    method Update(uuid: nat, name: string, data: map<string, string>, baseVersion: nat) returns (reply: Reply)
      modifies this
      ensures reply == UpdateReply(old(store), uuid, baseVersion)
      ensures store == UpdateStore(old(store), uuid, name, data, baseVersion)
    {
      reply := UpdateReply(store, uuid, baseVersion);
      store := UpdateStore(store, uuid, name, data, baseVersion);
    }

    /** Upserts the rows while other writers make the `foreign` operations,
        the i-th group of them just before the i-th row is dealt with. An
        error ends the call after `done` rows, before anything is inserted. */
    method UpsertEntityRows(mergeRows: seq<SourceRow>, foreign: seq<seq<ForeignOp>>)
      returns (failed: bool, done: nat)
      modifies this
      ensures done <= |mergeRows| && (!failed ==> done == |mergeRows|)
      ensures failed == Upsert(old(store), mergeRows, foreign).failed
      ensures failed ==> store == After(old(store), mergeRows, foreign, done).store
      ensures !failed ==> store == Upsert(old(store), mergeRows, foreign).store
    {
      ghost var start := store;
      var snapshot := store.rows;
      var toInsert: seq<SourceRow> := [];
      done, failed := 0, false;
      while done < |mergeRows| && !failed
        invariant done <= |mergeRows|
        invariant var p := After(start, mergeRows, foreign, done);
                  p.failed == failed && store == p.store && toInsert == p.toInsert
      {
        var absent;
        absent, failed := UpsertRow(snapshot, mergeRows[done], OpsAt(foreign, done));
        RowStepParts(snapshot, After(start, mergeRows, foreign, done), mergeRows[done], OpsAt(foreign, done));
        if absent { toInsert := toInsert + [mergeRows[done]]; }
        done := done + 1;
      }
      if failed {
        FailureLasts(start, mergeRows, foreign, done, |mergeRows|);
        return;
      }
      store := ForeignAll(store, OpsAt(foreign, |mergeRows|));
      if toInsert != [] {
        store := InsertAll(store, toInsert);
      }
    }

    /** The loop's body: one source row against the snapshot. */
    method UpsertRow(snapshot: seq<Entity>, row: SourceRow, foreign: seq<ForeignOp>)
      returns (absent: bool, failed: bool)
      modifies this
      ensures absent <==> NameOf(row).Some? && Target(snapshot, row).None?
      ensures (store, failed) == RowEffect(snapshot, old(store), row, foreign)
    {
      store := ForeignAll(store, foreign);
      absent, failed := false, false;
      if NameOf(row).None? { return; }
      var target := Target(snapshot, row);
      if target.None? {
        absent := true;
        return;
      }
      var e := snapshot[target.value];
      var updateData := GetEntityUpdateData(row, e);
      if updateData == map[] { return; }
      var reply := Update(e.uuid, e.name, updateData, e.version);
      failed := reply == NotFound;
    }
  }

  /** What one row does to the store, and whether it ends the loop. */
  function RowEffect(snap: seq<Entity>, store: Store, row: SourceRow, ops: seq<ForeignOp>): (Store, bool) {
    var target := Target(snap, row);
    var now := ForeignAll(store, ops);
    if target.None? || UpdateData(row, snap[target.value]) == map[] then (now, false)
    else
      var e := snap[target.value];
      (UpdateStore(now, e.uuid, e.name, UpdateData(row, e), e.version),
       UpdateReply(now, e.uuid, e.version) == NotFound)
  }

  lemma RowStepParts(snap: seq<Entity>, p: Progress, row: SourceRow, ops: seq<ForeignOp>)
    requires !p.failed
    ensures var p' := RowStep(snap, p, row, ops);
            && (p'.store, p'.failed) == RowEffect(snap, p.store, row, ops)
            && p'.toInsert == if NameOf(row).Some? && Target(snap, row).None? then p.toInsert + [row] else p.toInsert
  {
  }

  lemma {:induction false} FailureLasts(
      start: Store, rows: seq<SourceRow>, foreign: seq<seq<ForeignOp>>, n: nat, m: nat)
    requires n <= m <= |rows| && After(start, rows, foreign, n).failed
    ensures After(start, rows, foreign, m).failed
    decreases m
  {
    if n < m { FailureLasts(start, rows, foreign, n, m - 1); }
  }

  // ---- safety against other writers ----

  /** Every accepted update met exactly the entity of the snapshot. */
  ghost predicate CallsMetSnapshot(start: Store, p: Progress) {
    forall i :: 0 <= i < |p.calls| && p.calls[i].reply == Accepted ==>
      Find(start, p.calls[i].uuid).Some? && Find(p.calls[i].before, p.calls[i].uuid) == Find(start, p.calls[i].uuid)
  }

  ghost predicate AcceptedOnce(p: Progress) {
    forall i, j :: 0 <= i < j < |p.calls| && p.calls[i].reply == p.calls[j].reply == Accepted ==>
      p.calls[i].uuid != p.calls[j].uuid
  }

  predicate Touched(p: Progress, uuid: nat) {
    exists i :: 0 <= i < |p.calls| && p.calls[i].reply == Accepted && p.calls[i].uuid == uuid
  }

  /** An entity now, against its snapshot: versions never fall, an unchanged
      version means an unchanged entity, and ours have moved on. */
  ghost predicate History(start: Store, p: Progress, uuid: nat) {
    var now := Find(p.store, uuid);
    var atStart := Find(start, uuid);
    now.Some? ==>
      && atStart.Some? && now.value.version >= atStart.value.version
      && (now.value.version == atStart.value.version ==> now == atStart && !Touched(p, uuid))
  }

  ghost predicate Safe(start: Store, p: Progress) {
    && Valid(p.store) && start.next <= p.store.next
    && CallsMetSnapshot(start, p)
    && AcceptedOnce(p)
    && (forall i :: 0 <= i < |p.calls| ==> p.calls[i].uuid < start.next)
    && forall uuid: nat :: uuid < start.next ==> History(start, p, uuid)
  }

  lemma ForeignKeepsSafe(start: Store, p: Progress, ops: seq<ForeignOp>)
    requires Safe(start, p)
    ensures Safe(start, p.(store := ForeignAll(p.store, ops)))
  {
    var p' := p.(store := ForeignAll(p.store, ops));
    ForeignAllByEntity(p.store, ops, 0);
    forall uuid: nat | uuid < start.next
      ensures History(start, p', uuid)
    {
      assert History(start, p, uuid);
      ForeignAllByEntity(p.store, ops, uuid);
      ForeignVersions(Find(p.store, uuid), uuid, ops);
    }
  }

  /** One update request: accepted only on the snapshot's own entity. */
  lemma CallKeepsSafe(start: Store, p: Progress, i: nat, payload: map<string, string>)
    requires Safe(start, p) && Valid(start) && i < |start.rows|
    ensures var e := start.rows[i];
            var reply := UpdateReply(p.store, e.uuid, e.version);
            Safe(start, p.(store := UpdateStore(p.store, e.uuid, e.name, payload, e.version),
                           calls := p.calls + [Call(e.uuid, payload, p.store, reply)],
                           failed := reply == NotFound))
  {
    var e := start.rows[i];
    var reply := UpdateReply(p.store, e.uuid, e.version);
    var p' := p.(store := UpdateStore(p.store, e.uuid, e.name, payload, e.version),
                 calls := p.calls + [Call(e.uuid, payload, p.store, reply)],
                 failed := reply == NotFound);
    FindAt(start, i);
    assert History(start, p, e.uuid);
    UpdateByEntity(p.store, e.uuid, e.name, payload, e.version, e.uuid);
    forall uuid: nat | uuid < start.next
      ensures History(start, p', uuid)
    {
      assert History(start, p, uuid);
      UpdateByEntity(p.store, e.uuid, e.name, payload, e.version, uuid);
      assert uuid != e.uuid && Touched(p', uuid) ==> Touched(p, uuid);
      assert reply != Accepted && Touched(p', uuid) ==> Touched(p, uuid);
    }
  }

  lemma RowKeepsSafe(start: Store, p: Progress, row: SourceRow, ops: seq<ForeignOp>)
    requires Safe(start, p) && Valid(start)
    ensures Safe(start, RowStep(start.rows, p, row, ops))
  {
    var p1 := p.(store := ForeignAll(p.store, ops));
    ForeignKeepsSafe(start, p, ops);
    var target := Target(start.rows, row);
    if p.failed || target.None? || UpdateData(row, start.rows[target.value]) == map[] {
      var p' := RowStep(start.rows, p, row, ops);
      assert p' == p1.(toInsert := p'.toInsert);
      assert forall uuid: nat :: uuid < start.next && History(start, p1, uuid) ==> History(start, p', uuid);
    } else {
      CallKeepsSafe(start, p1, target.value, UpdateData(row, start.rows[target.value]));
    }
  }

  lemma {:induction false} LoopIsSafe(start: Store, rows: seq<SourceRow>, foreign: seq<seq<ForeignOp>>, n: nat)
    requires Valid(start) && n <= |rows|
    ensures Safe(start, After(start, rows, foreign, n))
  {
    if n > 0 {
      LoopIsSafe(start, rows, foreign, n - 1);
      RowKeepsSafe(start, After(start, rows, foreign, n - 1), rows[n - 1], OpsAt(foreign, n - 1));
    } else {
      assert forall uuid: nat :: uuid < start.next ==> History(start, Progress(start, [], [], false), uuid);
    }
  }

  lemma InsertKeepsSafe(start: Store, p: Progress, rows: seq<SourceRow>)
    requires Safe(start, p)
    ensures Safe(start, p.(store := InsertAll(p.store, rows)))
  {
    hide Valid, Find;
    var p' := p.(store := InsertAll(p.store, rows));
    InsertByEntity(p.store, rows, 0);
    forall uuid: nat | uuid < start.next
      ensures History(start, p', uuid)
    {
      assert History(start, p, uuid);
      InsertByEntity(p.store, rows, uuid);
    }
  }

  /** Whatever the other writers do, from the snapshot to after the bulk
      insert: an update goes through only if nobody wrote the entity since the
      snapshot, so it never overwrites another writer's change, and each
      entity is updated at most once per call even when labels repeat. */
  lemma UpsertIsSafe(start: Store, rows: seq<SourceRow>, foreign: seq<seq<ForeignOp>>)
    requires Valid(start)
    ensures Safe(start, Upsert(start, rows, foreign))
  {
    hide Safe;
    var p := After(start, rows, foreign, |rows|);
    LoopIsSafe(start, rows, foreign, |rows|);
    var p' := p.(store := ForeignAll(p.store, OpsAt(foreign, |rows|)));
    ForeignKeepsSafe(start, p, OpsAt(foreign, |rows|));
    if !p.failed { InsertKeepsSafe(start, p', p.toInsert); }
  }

  /** The other writers' operations alone, on one entity. */
  ghost function ForeignOnly(start: Store, uuid: nat, foreign: seq<seq<ForeignOp>>, n: nat): Option<Entity> {
    if n == 0 then Find(start, uuid)
    else ForeignAllOn(ForeignOnly(start, uuid, foreign, n - 1), uuid, OpsAt(foreign, n - 1))
  }

  lemma {:induction false} UntouchedInLoop(
      start: Store, rows: seq<SourceRow>, foreign: seq<seq<ForeignOp>>, n: nat, uuid: nat)
    requires Valid(start) && n <= |rows| && uuid < start.next
    requires !Touched(After(start, rows, foreign, n), uuid)
    ensures Find(After(start, rows, foreign, n).store, uuid) == ForeignOnly(start, uuid, foreign, n)
  {
    hide Touched, RowStep, Valid, ForeignAllOn, Find;
    if n > 0 {
      var p := After(start, rows, foreign, n - 1);
      TouchedStays(start.rows, p, rows[n - 1], OpsAt(foreign, n - 1), uuid);
      UntouchedInLoop(start, rows, foreign, n - 1, uuid);
      StaysValid(start, rows, foreign, n - 1);
      UntouchedByRow(start, p, rows[n - 1], OpsAt(foreign, n - 1), uuid);
    }
  }

  /** An entity without an accepted update ends, after the whole upsert, as
      the other writers alone would have left it. */
  lemma UntouchedIsForeignOnly(start: Store, rows: seq<SourceRow>, foreign: seq<seq<ForeignOp>>, uuid: nat)
    requires Valid(start) && uuid < start.next
    requires !Touched(Upsert(start, rows, foreign), uuid)
    ensures Find(Upsert(start, rows, foreign).store, uuid) == ForeignOnly(start, uuid, foreign, |rows| + 1)
  {
    hide Valid, ForeignAllOn, Find, After, InsertAll, ForeignAll;
    var p := After(start, rows, foreign, |rows|);
    var ops := OpsAt(foreign, |rows|);
    UntouchedInLoop(start, rows, foreign, |rows|, uuid);
    StaysValid(start, rows, foreign, |rows|);
    ForeignAllByEntity(p.store, ops, uuid);
    InsertByEntity(ForeignAll(p.store, ops), p.toInsert, uuid);
  }

  lemma StaysValid(start: Store, rows: seq<SourceRow>, foreign: seq<seq<ForeignOp>>, n: nat)
    requires Valid(start) && n <= |rows|
    ensures Valid(After(start, rows, foreign, n).store) && start.next <= After(start, rows, foreign, n).store.next
  {
    LoopIsSafe(start, rows, foreign, n);
  }

  lemma TouchedStays(snap: seq<Entity>, p: Progress, row: SourceRow, ops: seq<ForeignOp>, uuid: nat)
    ensures Touched(p, uuid) ==> Touched(RowStep(snap, p, row, ops), uuid)
  {
    var p' := RowStep(snap, p, row, ops);
    assert forall i :: 0 <= i < |p.calls| ==> p'.calls[i] == p.calls[i];
  }

  /** A row step without an accepted update of an entity leaves to it what
      the other writers do. */
  lemma UntouchedByRow(start: Store, p: Progress, row: SourceRow, ops: seq<ForeignOp>, uuid: nat)
    requires Valid(p.store) && uuid < p.store.next
    requires !Touched(RowStep(start.rows, p, row, ops), uuid)
    ensures Find(RowStep(start.rows, p, row, ops).store, uuid) == ForeignAllOn(Find(p.store, uuid), uuid, ops)
  {
    var p' := RowStep(start.rows, p, row, ops);
    var store := ForeignAll(p.store, ops);
    ForeignAllByEntity(p.store, ops, uuid);
    if |p'.calls| > |p.calls| {
      var call := p'.calls[|p.calls|];
      assert call.reply == Accepted ==> call.uuid != uuid;
      var e := start.rows[Target(start.rows, row).value];
      UpdateByEntity(store, e.uuid, e.name, call.payload, e.version, uuid);
    }
  }

  // ---- which rows take part, and what an error does ----

  ghost predicate Labelled(row: SourceRow) {
    "label" in row && row["label"] != ""
  }

  /** A row without a label, or with an empty one, does nothing at all. */
  lemma UnlabelledRowDoesNothing(snap: seq<Entity>, p: Progress, row: SourceRow, ops: seq<ForeignOp>)
    requires !Labelled(row)
    ensures RowStep(snap, p, row, ops) == p.(store := ForeignAll(p.store, ops))
  {
  }

  /** A label no table entity has. */
  ghost predicate IsNew(snap: seq<Entity>, row: SourceRow) {
    Labelled(row) && forall j :: 0 <= j < |snap| ==> snap[j].name != row["label"]
  }

  ghost function NewRows(snap: seq<Entity>, rows: seq<SourceRow>, n: nat): nat
    requires n <= |rows|
  {
    if n == 0 then 0 else NewRows(snap, rows, n - 1) + if IsNew(snap, rows[n - 1]) then 1 else 0
  }

  ghost function Creates(ops: seq<ForeignOp>): nat {
    if ops == [] then 0 else Creates(ops[..|ops| - 1]) + if ops[|ops| - 1].Create? then 1 else 0
  }

  ghost function CreatesIn(foreign: seq<seq<ForeignOp>>, n: nat): nat {
    if n == 0 then 0 else CreatesIn(foreign, n - 1) + Creates(OpsAt(foreign, n - 1))
  }

  lemma {:induction false} ForeignNext(s: Store, ops: seq<ForeignOp>)
    ensures ForeignAll(s, ops).next == s.next + Creates(ops)
  {
    if ops != [] { ForeignNext(s, ops[..|ops| - 1]); }
  }

  lemma {:induction false} InsertNext(s: Store, rows: seq<SourceRow>)
    ensures InsertAll(s, rows).next == s.next + |rows|
    decreases |rows|
  {
    if rows != [] { InsertNext(Store(s.rows + [Created(s.next, rows[0])], s.next + 1), rows[1..]); }
  }

  /** One row: no request or one more, which ends the loop if the entity was
      gone, and a row to insert exactly for a new label. */
  lemma RowErrors(snap: seq<Entity>, p: Progress, row: SourceRow, ops: seq<ForeignOp>)
    ensures var p' := RowStep(snap, p, row, ops);
            && p'.store.next == ForeignAll(p.store, ops).next
            && (p.failed ==> p'.failed && p'.calls == p.calls)
            && (!p.failed ==>
                 && |p.calls| <= |p'.calls| <= |p.calls| + 1 && p'.calls[..|p.calls|] == p.calls
                 && (p'.failed <==> |p'.calls| > |p.calls| && p'.calls[|p.calls|].reply == NotFound)
                 && |p'.toInsert| == |p.toInsert| + if IsNew(snap, row) then 1 else 0)
  {
    hide ForeignAll, UpdateData, LastNamed;
  }

  /** The loop: an error other than a version conflict is one request whose
      entity was gone; it is the last request, and up to it the rows to insert
      are those with a new label. */
  lemma {:induction false} LoopErrors(start: Store, rows: seq<SourceRow>, foreign: seq<seq<ForeignOp>>, n: nat)
    requires n <= |rows|
    ensures var p := After(start, rows, foreign, n);
            && (p.failed <==> p.calls != [] && p.calls[|p.calls| - 1].reply == NotFound)
            && (forall i :: 0 <= i < |p.calls| - 1 ==> p.calls[i].reply != NotFound)
            && p.store.next == start.next + CreatesIn(foreign, n)
            && (!p.failed ==> |p.toInsert| == NewRows(start.rows, rows, n))
  {
    hide ForeignAll, RowStep, Creates, IsNew;
    if n > 0 {
      LoopErrors(start, rows, foreign, n - 1);
      RowErrors(start.rows, After(start, rows, foreign, n - 1), rows[n - 1], OpsAt(foreign, n - 1));
      ForeignNext(After(start, rows, foreign, n - 1).store, OpsAt(foreign, n - 1));
    }
  }

  /** The upsert stops with an error exactly when an update met an entity that
      was gone, and then inserts nothing; otherwise it inserts one entity for
      every source row with a label the table did not have. A version conflict
      is no error. */
  lemma ErrorsInsertNothing(start: Store, rows: seq<SourceRow>, foreign: seq<seq<ForeignOp>>)
    ensures var p := Upsert(start, rows, foreign);
            && (p.failed <==> exists i :: 0 <= i < |p.calls| && p.calls[i].reply == NotFound)
            && (forall i :: 0 <= i < |p.calls| - 1 ==> p.calls[i].reply != NotFound)
            && p.store.next == start.next + CreatesIn(foreign, |rows| + 1)
                 + if p.failed then 0 else NewRows(start.rows, rows, |rows|)
  {
    hide After, ForeignAll, InsertAll, Creates;
    LoopErrors(start, rows, foreign, |rows|);
    var p := After(start, rows, foreign, |rows|);
    ForeignNext(p.store, OpsAt(foreign, |rows|));
    InsertNext(ForeignAll(p.store, OpsAt(foreign, |rows|)), p.toInsert);
  }

  /** What the server answers: gone, stale or accepted. */
  lemma ReplyLaw(s: Store, uuid: nat, baseVersion: nat)
    requires Valid(s)
    ensures UpdateReply(s, uuid, baseVersion) == NotFound
            <==> forall i :: 0 <= i < |s.rows| ==> s.rows[i].uuid != uuid
    ensures UpdateReply(s, uuid, baseVersion) == Accepted
            <==> exists i :: 0 <= i < |s.rows| && s.rows[i].uuid == uuid && s.rows[i].version == baseVersion
  {
    var i := IndexOf(s.rows, uuid);
    if i.Some? { assert s.rows[i.value].uuid == uuid; }
  }
}
