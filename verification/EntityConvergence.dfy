/** The upsert when nobody else writes: what the dataset ends as, how many
    entities a label has, and what a second run does. */
module EntityConvergence {
  import opened Decimals
  import opened Text
  import opened EntityStore
  import opened EntityUpsert

  // ---- the update payload ----

  /** The reserved columns of a source row that do not read as the entity's:
      no payload can change those. */
  function Mismatched(row: SourceRow, e: Entity): set<string> {
    set k | k in row.Keys && k in RESERVED && row[k] != ReservedText(e, k)
  }

  /** A written entity with the payload sent to it. */
  function Aligned(e: Entity, row: SourceRow): Entity {
    if UpdateData(row, e) == map[] then e else Written(e, e.name, UpdateData(row, e))
  }

  /** After its update an entity agrees with the source row on every key but
      the reserved columns that read differently then. */
  lemma AlignedAgrees(row: SourceRow, e: Entity)
    ensures UpdateData(row, Aligned(e, row)).Keys == Mismatched(row, Aligned(e, row))
  {
    var e' := Aligned(e, row);
    forall k | k in row && k != "label"
      ensures k in UpdateData(row, e') <==> k in Mismatched(row, e')
    {
      if k !in RESERVED && k in UpdateData(row, e) { assert e'.data[k] == Some(row[k]); }
    }
    assert "label" !in RESERVED;
  }

  /** A row settles exactly when its reserved columns, if it has any, read as
      the entity's own: the id never changes, and the version is the old one
      if nothing had to be sent and one more otherwise. */
  lemma SettlesIff(row: SourceRow, e: Entity)
    ensures UpdateData(row, Aligned(e, row)) == map[] <==>
      && ("__id" in row ==> row["__id"] == IdText(e.uuid))
      && ("__system" in row ==>
            row["__system"] == SystemText(e.version + if UpdateData(row, e) == map[] then 0 else 1))
  {
    hide IdText, SystemText;
    var e' := Aligned(e, row);
    AlignedAgrees(row, e);
    assert UpdateData(row, e') == map[] <==> UpdateData(row, e').Keys == {};
    assert "__id" in RESERVED && "__system" in RESERVED;
    assert forall k :: k in Mismatched(row, e') <==> k in row && k in RESERVED && row[k] != ReservedText(e', k);
  }

  lemma SystemTextIsInjective(v: nat, w: nat)
    requires SystemText(v) == SystemText(w)
    ensures v == w
  {
    var head := "{'version': ";
    var a, b := SystemText(v), SystemText(w);
    assert Digits(v, 1) == a[|head|..|a| - 1] && Digits(w, 1) == b[|head|..|b| - 1];
    ValueOfDigits(v, 1);
    ValueOfDigits(w, 1);
  }

  /** The entity after n runs that find nobody else writing it. */
  function AlignedTimes(e: Entity, row: SourceRow, n: nat): (r: Entity)
    ensures r.version >= e.version
  {
    if n == 0 then e else Aligned(AlignedTimes(e, row, n - 1), row)
  }

  /** A source row that carries an older version record, such as one exported
      before the last write, is sent again by every run. */
  lemma OldVersionNeverSettles(row: SourceRow, e: Entity, w: nat, n: nat)
    requires "__system" in row && row["__system"] == SystemText(w) && w < e.version
    ensures UpdateData(row, AlignedTimes(e, row, n)) != map[]
  {
    var e' := AlignedTimes(e, row, n);
    if SystemText(e'.version) == SystemText(w) { SystemTextIsInjective(e'.version, w); }
    assert "__system" in UpdateData(row, e');
  }

  /** The payload is minimal: leaving out any of its keys leaves the entity
      in disagreement on just the keys left out, reserved columns aside. */
  lemma PayloadIsMinimal(row: SourceRow, e: Entity, dropped: set<string>)
    requires dropped <= UpdateData(row, e).Keys
    ensures var e' := Written(e, e.name, UpdateData(row, e) - dropped);
      UpdateData(row, e').Keys == (dropped - RESERVED) + Mismatched(row, e')
  {
    hide IdText, SystemText;
    var payload := UpdateData(row, e);
    var e' := Written(e, e.name, payload - dropped);
    forall k | k in row && k != "label"
      ensures k in UpdateData(row, e') <==> k in (dropped - RESERVED) + Mismatched(row, e')
    {
      if k !in RESERVED {
        if k in payload && k !in dropped { assert e'.data[k] == Some(row[k]); }
        if k !in payload || k in dropped { assert CellOf(e', k) == CellOf(e, k); }
      }
    }
    assert "label" !in RESERVED;
  }

  /** Keys outside the payload keep their cells, the version record aside. */
  lemma PayloadFrame(row: SourceRow, e: Entity, key: string)
    requires key !in UpdateData(row, e)
    ensures key != "__system" ==> CellOf(Aligned(e, row), key) == CellOf(e, key)
  {
  }

  /** Agreement is agreement as text: the stored cells hold the very source
      values exactly when no source value is the word "None" on a null. */
  lemma StoredExactlyIff(row: SourceRow, e: Entity)
    ensures (forall k :: k in row && k != "label" && k !in RESERVED ==> CellOf(Aligned(e, row), k) == Holds(row[k]))
            <==> !exists k :: k in row && k != "label" && row[k] == "None" && CellOf(e, k) == Null
  {
    hide IdText, SystemText;
    var e' := Aligned(e, row);
    forall k | k in row && k != "label" && k !in RESERVED
      ensures CellOf(e', k) == Holds(row[k]) <==> !(row[k] == "None" && CellOf(e, k) == Null)
    {
      if k in UpdateData(row, e) {
        assert e'.data[k] == Some(row[k]);
      } else {
        PayloadFrame(row, e, k);
      }
    }
  }

  // ---- the loop without other writers ----

  /** The source rows, among the first n, whose label is not in the table. */
  function Absent(snap: seq<Entity>, rows: seq<SourceRow>, n: nat): seq<SourceRow>
    requires n <= |rows|
  {
    if n == 0 then []
    else
      var before := Absent(snap, rows, n - 1);
      if NameOf(rows[n - 1]).Some? && Target(snap, rows[n - 1]).None? then before + [rows[n - 1]] else before
  }

  /** The stored entities keep their places, uuids and labels. */
  ghost predicate SameShape(start: Store, s: Store) {
    && s.next == start.next && |s.rows| == |start.rows|
    && forall j :: 0 <= j < |start.rows| ==>
         s.rows[j].uuid == start.rows[j].uuid && s.rows[j].name == start.rows[j].name
  }

  lemma SameShapeIndex(start: Store, s: Store, j: nat)
    requires Valid(start) && SameShape(start, s) && j < |start.rows|
    ensures IndexOf(s.rows, start.rows[j].uuid) == Some(j)
  {
    assert Valid(s);
    FindAt(s, j);
  }

  /** Alone, the loop never fails and only collects the absent rows. */
  lemma {:induction false} AloneKeepsShape(start: Store, rows: seq<SourceRow>, n: nat)
    requires Valid(start) && n <= |rows|
    ensures var p := After(start, rows, [], n);
            !p.failed && SameShape(start, p.store) && p.toInsert == Absent(start.rows, rows, n)
  {
    if n > 0 {
      AloneKeepsShape(start, rows, n - 1);
      var p := After(start, rows, [], n - 1);
      var target := Target(start.rows, rows[n - 1]);
      if target.Some? { SameShapeIndex(start, p.store, target.value); }
    }
  }

  predicate DistinctNames(rows: seq<SourceRow>) {
    forall i, j :: 0 <= i < j < |rows| && NameOf(rows[i]).Some? ==> NameOf(rows[i]) != NameOf(rows[j])
  }

  /** Some one of the first n source rows is matched with table row j. */
  predicate Matched(snap: seq<Entity>, rows: seq<SourceRow>, n: nat, j: nat)
    requires n <= |rows|
  {
    exists i :: 0 <= i < n && Target(snap, rows[i]) == Some(j)
  }

  /** What the n-th row does to the j-th entity, if nothing did before. */
  lemma AloneStep(start: Store, rows: seq<SourceRow>, n: nat, j: nat)
    requires Valid(start) && 0 < n <= |rows| && j < |start.rows|
    ensures var before, after := After(start, rows, [], n - 1).store, After(start, rows, [], n).store;
            && |before.rows| == |after.rows| == |start.rows|
            && (Target(start.rows, rows[n - 1]) != Some(j) ==> after.rows[j] == before.rows[j])
            && (Target(start.rows, rows[n - 1]) == Some(j) && before.rows[j] == start.rows[j] ==>
                  after.rows[j] == Aligned(start.rows[j], rows[n - 1]))
  {
    AloneKeepsShape(start, rows, n - 1);
    var target := Target(start.rows, rows[n - 1]);
    if target.Some? { SameShapeIndex(start, After(start, rows, [], n - 1).store, target.value); }
  }

  /** An entity no source row is matched with is untouched. */
  lemma {:induction false} AloneLeaves(start: Store, rows: seq<SourceRow>, n: nat, j: nat)
    requires Valid(start) && n <= |rows| && j < |start.rows|
    ensures |After(start, rows, [], n).store.rows| == |start.rows|
    ensures !Matched(start.rows, rows, n, j) ==> After(start, rows, [], n).store.rows[j] == start.rows[j]
  {
    hide RowStep, Aligned, Target, Valid;
    if n > 0 {
      AloneLeaves(start, rows, n - 1, j);
      AloneStep(start, rows, n, j);
      assert Matched(start.rows, rows, n - 1, j) ==> Matched(start.rows, rows, n, j);
    }
  }

  /** Rows with distinct labels are matched with distinct entities. */
  lemma TargetsDiffer(snap: seq<Entity>, rows: seq<SourceRow>, i: nat, k: nat)
    requires DistinctNames(rows) && i < k < |rows|
    ensures Target(snap, rows[k]).Some? ==> Target(snap, rows[i]) != Target(snap, rows[k])
  {
    assert NameOf(rows[i]).Some? ==> NameOf(rows[i]) != NameOf(rows[k]);
  }

  /** With distinct labels each matched entity is aligned with its row. */
  lemma {:induction false} AloneAligns(start: Store, rows: seq<SourceRow>, n: nat, j: nat, i: nat)
    requires Valid(start) && i < n <= |rows| && DistinctNames(rows) && j < |start.rows|
    requires Target(start.rows, rows[i]) == Some(j)
    ensures |After(start, rows, [], n).store.rows| == |start.rows|
    ensures After(start, rows, [], n).store.rows[j] == Aligned(start.rows[j], rows[i])
  {
    hide RowStep, Aligned, Target, Valid, After;
    AloneStep(start, rows, n, j);
    if i < n - 1 {
      AloneAligns(start, rows, n - 1, j, i);
      TargetsDiffer(start.rows, rows, i, n - 1);
    } else {
      AloneLeaves(start, rows, n - 1, j);
      forall k | 0 <= k < n - 1
        ensures Target(start.rows, rows[k]) != Some(j)
      {
        TargetsDiffer(start.rows, rows, k, n - 1);
      }
    }
  }

  lemma {:induction false} InsertAllAppends(s: Store, rows: seq<SourceRow>)
    ensures var s' := InsertAll(s, rows);
            && |s'.rows| == |s.rows| + |rows|
            && (forall j :: 0 <= j < |s.rows| ==> s'.rows[j] == s.rows[j])
            && forall m :: |s.rows| <= m < |s'.rows| ==>
                 s'.rows[m] == Created(s.next + (m - |s.rows|), rows[m - |s.rows|])
    decreases |rows|
  {
    if rows != [] {
      InsertAllAppends(Store(s.rows + [Created(s.next, rows[0])], s.next + 1), rows[1..]);
    }
  }

  // ---- how many entities a label has ----

  function Count(names: seq<string>, name: string): nat {
    if names == [] then 0
    else Count(names[..|names| - 1], name) + (if names[|names| - 1] == name then 1 else 0)
  }

  function Names(rows: seq<Entity>): seq<string> {
    seq(|rows|, i requires 0 <= i < |rows| => rows[i].name)
  }

  function RowNames(rows: seq<SourceRow>): (r: seq<string>)
    ensures |r| == |rows|
  {
    seq(|rows|, i requires 0 <= i < |rows| => if NameOf(rows[i]).Some? then NameOf(rows[i]).value else "")
  }

  lemma {:induction false} CountConcat(a: seq<string>, b: seq<string>, name: string)
    ensures Count(a + b, name) == Count(a, name) + Count(b, name)
  {
    if b == [] {
      assert a + b == a;
    } else {
      CountConcat(a, b[..|b| - 1], name);
      assert (a + b)[..|a + b| - 1] == a + b[..|b| - 1];
    }
  }

  lemma {:induction false} CountZero(rows: seq<Entity>, name: string)
    ensures Count(Names(rows), name) == 0 <==> LastNamed(rows, name).None?
  {
    if rows != [] {
      var init := rows[..|rows| - 1];
      CountZero(init, name);
      assert Names(rows)[..|rows| - 1] == Names(init);
    }
  }

  lemma {:induction false} AbsentRows(snap: seq<Entity>, rows: seq<SourceRow>, n: nat)
    requires n <= |rows|
    ensures forall k :: 0 <= k < |Absent(snap, rows, n)| ==>
              NameOf(Absent(snap, rows, n)[k]).Some? && Target(snap, Absent(snap, rows, n)[k]).None?
  {
    if n > 0 { AbsentRows(snap, rows, n - 1); }
  }

  lemma CountSnoc(rows: seq<SourceRow>, row: SourceRow, name: string)
    requires name != ""
    ensures Count(RowNames([]), name) == 0
    ensures Count(RowNames(rows + [row]), name)
            == Count(RowNames(rows), name) + (if NameOf(row) == Some(name) then 1 else 0)
  {
    assert RowNames(rows + [row])[..|rows|] == RowNames(rows);
  }

  lemma {:induction false} AbsentCount(snap: seq<Entity>, rows: seq<SourceRow>, n: nat, name: string)
    requires n <= |rows| && name != ""
    ensures Count(RowNames(Absent(snap, rows, n)), name)
            == if LastNamed(snap, name).Some? then 0 else Count(RowNames(rows[..n]), name)
  {
    hide RowNames, Count, LastNamed, NameOf;
    if n > 0 {
      var before, row := Absent(snap, rows, n - 1), rows[n - 1];
      AbsentCount(snap, rows, n - 1, name);
      CountSnoc(rows[..n - 1], row, name);
      CountSnoc(before, row, name);
      assert rows[..n] == rows[..n - 1] + [row];
    } else {
      CountSnoc([], map[], name);
      assert rows[..0] == [];
    }
  }

  lemma NamesAfterInsert(s: Store, rows: seq<SourceRow>)
    requires forall k :: 0 <= k < |rows| ==> NameOf(rows[k]).Some?
    ensures Names(InsertAll(s, rows).rows) == Names(s.rows) + RowNames(rows)
  {
    InsertAllAppends(s, rows);
    var s' := InsertAll(s, rows);
    forall m | 0 <= m < |s'.rows|
      ensures Names(s'.rows)[m] == (Names(s.rows) + RowNames(rows))[m]
    {
      assert m < |s.rows| ==> s'.rows[m] == s.rows[m];
    }
  }

  /** For any table and any source rows, repeated labels included: a label
      the table has keeps its number of entities, and a label it lacks gets
      one entity for every source row that carries it. */
  lemma EntitiesPerLabel(start: Store, rows: seq<SourceRow>, name: string)
    requires Valid(start) && name != ""
    ensures var had := Count(Names(start.rows), name);
            Count(Names(Upsert(start, rows, []).store.rows), name)
            == if had > 0 then had else Count(RowNames(rows), name)
  {
    var p := After(start, rows, [], |rows|);
    AloneKeepsShape(start, rows, |rows|);
    AbsentRows(start.rows, rows, |rows|);
    AbsentCount(start.rows, rows, |rows|, name);
    CountZero(start.rows, name);
    NamesAfterInsert(p.store, p.toInsert);
    CountConcat(Names(p.store.rows), RowNames(p.toInsert), name);
    assert rows[..|rows|] == rows;
    assert Names(p.store.rows) == Names(start.rows);
  }

  // ---- convergence ----

  lemma {:induction false} LastNamedIs(rows: seq<Entity>, j: nat)
    requires j < |rows| && forall i :: j < i < |rows| ==> rows[i].name != rows[j].name
    ensures LastNamed(rows, rows[j].name) == Some(j)
  {
    if j != |rows| - 1 { LastNamedIs(rows[..|rows| - 1], j); }
  }

  /** An absent row is among the collected ones, at a place of its own. */
  lemma {:induction false} AbsentHas(snap: seq<Entity>, rows: seq<SourceRow>, n: nat, i: nat) returns (k: nat)
    requires i < n <= |rows| && DistinctNames(rows)
    requires NameOf(rows[i]).Some? && Target(snap, rows[i]).None?
    ensures k == |Absent(snap, rows, i)| < |Absent(snap, rows, n)| && Absent(snap, rows, n)[k] == rows[i]
    ensures forall m :: k < m < |Absent(snap, rows, n)| ==> NameOf(Absent(snap, rows, n)[m]) != NameOf(rows[i])
  {
    if i == n - 1 {
      k := |Absent(snap, rows, n - 1)|;
    } else {
      k := AbsentHas(snap, rows, n - 1, i);
    }
  }

  /** A freshly created entity agrees with its row in the same way. */
  lemma CreatedAgrees(uuid: nat, row: SourceRow)
    ensures UpdateData(row, Created(uuid, row)).Keys == Mismatched(row, Created(uuid, row))
  {
    var e := Created(uuid, row);
    forall k | k in row && k != "label"
      ensures k in UpdateData(row, e) <==> k in Mismatched(row, e)
    {
    }
    assert "label" !in RESERVED;
  }

  /** The final table: the old entities in place, then the created ones. */
  lemma FinalRows(start: Store, rows: seq<SourceRow>)
    requires Valid(start)
    ensures var final := Upsert(start, rows, []).store.rows;
            var loop := After(start, rows, [], |rows|).store.rows;
            var absent := Absent(start.rows, rows, |rows|);
            && |loop| == |start.rows| && |final| == |loop| + |absent|
            && (forall j :: 0 <= j < |loop| ==> final[j] == loop[j])
            && forall m :: |loop| <= m < |final| ==>
                 final[m] == Created(start.next + (m - |loop|), absent[m - |loop|])
  {
    var p := After(start, rows, [], |rows|);
    AloneKeepsShape(start, rows, |rows|);
    UpsertAlone(start, rows);
    InsertAllAppends(p.store, p.toInsert);
  }

  lemma UpsertAlone(start: Store, rows: seq<SourceRow>)
    requires Valid(start)
    ensures var p := After(start, rows, [], |rows|);
            Upsert(start, rows, []).store == InsertAll(p.store, p.toInsert)
  {
    AloneKeepsShape(start, rows, |rows|);
    assert OpsAt([], |rows|) == [];
  }

  lemma OldEntityConverges(start: Store, rows: seq<SourceRow>, i: nat)
    requires Valid(start) && DistinctNames(rows) && i < |rows| && Target(start.rows, rows[i]).Some?
    ensures var final := Upsert(start, rows, []).store.rows;
            var at := Target(start.rows, rows[i]);
            && Target(final, rows[i]) == at && at.value < |final|
            && final[at.value] == Aligned(start.rows[at.value], rows[i])
  {
    hide Upsert, Absent, LastNamed, After, Valid, Aligned;
    var final := Upsert(start, rows, []).store.rows;
    var j := Target(start.rows, rows[i]).value;
    FinalRows(start, rows);
    AloneKeepsShape(start, rows, |rows|);
    AbsentRows(start.rows, rows, |rows|);
    AloneAligns(start, rows, |rows|, j, i);
    forall m | j < m < |final|
      ensures final[m].name != final[j].name
    {
      if m >= |start.rows| {
        var created := Absent(start.rows, rows, |rows|)[m - |start.rows|];
        assert NameOf(created).Some? && Target(start.rows, created).None?;
      }
    }
    LastNamedIs(final, j);
  }

  lemma NewEntityConverges(start: Store, rows: seq<SourceRow>, i: nat)
    requires Valid(start) && DistinctNames(rows) && i < |rows|
    requires NameOf(rows[i]).Some? && Target(start.rows, rows[i]).None?
    ensures var final := Upsert(start, rows, []).store.rows;
            var at := Target(final, rows[i]);
            && at.Some? && |start.rows| <= at.value
            && final[at.value] == Created(start.next + |Absent(start.rows, rows, i)|, rows[i])
  {
    hide Upsert, Absent, LastNamed, After, Valid, DistinctNames, Texts;
    var final := Upsert(start, rows, []).store.rows;
    var absent := Absent(start.rows, rows, |rows|);
    FinalRows(start, rows);
    AbsentRows(start.rows, rows, |rows|);
    var k := AbsentHas(start.rows, rows, |rows|, i);
    var at := |start.rows| + k;
    assert final[at] == Created(start.next + k, rows[i]);
    forall m | at < m < |final|
      ensures final[m].name != final[at].name
    {
      assert NameOf(absent[m - |start.rows|]) != NameOf(rows[i]);
    }
    LastNamedIs(final, at);
  }

  /** The entity a labelled source row is to end with: the aligned old one, or
      a new one made from it under the next free id. */
  function Expected(start: Store, rows: seq<SourceRow>, i: nat): Entity
    requires i < |rows|
  {
    var target := Target(start.rows, rows[i]);
    if target.Some? then Aligned(start.rows[target.value], rows[i])
    else Created(start.next + |Absent(start.rows, rows, i)|, rows[i])
  }

  /** Each labelled source row is matched, afterwards, with the entity it is to
      end with, the old one if there was one, and that entity agrees with the
      row on all keys but reserved columns that read differently. */
  lemma UpsertConverges(start: Store, rows: seq<SourceRow>, i: nat)
    requires Valid(start) && DistinctNames(rows) && i < |rows| && NameOf(rows[i]).Some?
    ensures var final := Upsert(start, rows, []).store.rows;
            var at := Target(final, rows[i]);
            && at.Some? && final[at.value] == Expected(start, rows, i)
            && (Target(start.rows, rows[i]).Some? ==> at == Target(start.rows, rows[i]))
    ensures UpdateData(rows[i], Expected(start, rows, i)).Keys == Mismatched(rows[i], Expected(start, rows, i))
  {
    hide Upsert, Absent, Target, Aligned, Created, UpdateData, Mismatched, Valid, DistinctNames;
    var target := Target(start.rows, rows[i]);
    if target.Some? {
      OldEntityConverges(start, rows, i);
      AlignedAgrees(rows[i], start.rows[target.value]);
    } else {
      NewEntityConverges(start, rows, i);
      CreatedAgrees(start.next + |Absent(start.rows, rows, i)|, rows[i]);
    }
  }

  /** Entities no source row is matched with stay exactly as they were. */
  lemma UpsertFrame(start: Store, rows: seq<SourceRow>, j: nat)
    requires Valid(start) && j < |start.rows| && !Matched(start.rows, rows, |rows|, j)
    ensures j < |Upsert(start, rows, []).store.rows| && Upsert(start, rows, []).store.rows[j] == start.rows[j]
  {
    FinalRows(start, rows);
    AloneLeaves(start, rows, |rows|, j);
  }

  // ---- repeated labels ----

  /** The first of the first n source rows that is matched with table row j
      and differs from it. */
  function FirstSending(snap: seq<Entity>, rows: seq<SourceRow>, n: nat, j: nat): (r: Option<nat>)
    requires n <= |rows| && j < |snap|
    ensures r.Some? ==> r.value < n && Target(snap, rows[r.value]) == Some(j)
    ensures r.Some? ==> UpdateData(rows[r.value], snap[j]) != map[]
  {
    if n == 0 then None
    else
      var before := FirstSending(snap, rows, n - 1, j);
      if before.Some? then before
      else if Target(snap, rows[n - 1]) == Some(j) && UpdateData(rows[n - 1], snap[j]) != map[] then Some(n - 1)
      else None
  }

  lemma StaleRow(snap: seq<Entity>, p: Progress, row: SourceRow, j: nat)
    requires j < |snap| && j < |p.store.rows| && Target(snap, row) == Some(j)
    requires IndexOf(p.store.rows, snap[j].uuid) == Some(j) && p.store.rows[j].version != snap[j].version
    ensures RowStep(snap, p, row, []).store == p.store
  {
    hide Target, UpdateData, IndexOf;
  }

  /** What the n-th row does to an entity that was written since the start:
      its base version is stale, so nothing. */
  lemma StaleStep(start: Store, rows: seq<SourceRow>, n: nat, j: nat)
    requires Valid(start) && 0 < n <= |rows| && j < |start.rows|
    requires |After(start, rows, [], n - 1).store.rows| == |start.rows|
    requires After(start, rows, [], n - 1).store.rows[j].version != start.rows[j].version
    ensures |After(start, rows, [], n).store.rows| == |start.rows|
    ensures After(start, rows, [], n).store.rows[j] == After(start, rows, [], n - 1).store.rows[j]
  {
    hide RowStep, Target, Valid, Aligned, IndexOf;
    AloneStep(start, rows, n, j);
    AloneKeepsShape(start, rows, n - 1);
    if Target(start.rows, rows[n - 1]) == Some(j) {
      var p := After(start, rows, [], n - 1);
      SameShapeIndex(start, p.store, j);
      assert OpsAt([], n - 1) == [];
      StaleRow(start.rows, p, rows[n - 1], j);
    }
  }

  lemma {:induction false} FirstSendingInLoop(start: Store, rows: seq<SourceRow>, n: nat, j: nat)
    requires Valid(start) && n <= |rows| && j < |start.rows|
    ensures |After(start, rows, [], n).store.rows| == |start.rows|
    ensures var first := FirstSending(start.rows, rows, n, j);
            After(start, rows, [], n).store.rows[j]
            == if first.Some? then Aligned(start.rows[j], rows[first.value]) else start.rows[j]
  {
    hide RowStep, Valid, UpdateData, Target;
    if n > 0 {
      FirstSendingInLoop(start, rows, n - 1, j);
      if FirstSending(start.rows, rows, n - 1, j).Some? {
        StaleStep(start, rows, n, j);
      } else {
        AloneStep(start, rows, n, j);
      }
    }
  }

  /** For any source rows, repeated labels included: an entity ends aligned
      with the first row of its label that differs from it, and the later ones
      are refused for their stale base version. */
  lemma FirstSendingRowWins(start: Store, rows: seq<SourceRow>, j: nat)
    requires Valid(start) && j < |start.rows|
    ensures var final := Upsert(start, rows, []).store.rows;
            var first := FirstSending(start.rows, rows, |rows|, j);
            && j < |final|
            && final[j] == if first.Some? then Aligned(start.rows[j], rows[first.value]) else start.rows[j]
  {
    FinalRows(start, rows);
    FirstSendingInLoop(start, rows, |rows|, j);
  }

  // ---- a second run ----

  /** Row i of a second run over the first run's outcome: quiet exactly when
      its reserved columns read as the entity's own. */
  predicate Settled(start: Store, rows: seq<SourceRow>, i: nat)
    requires i < |rows|
  {
    NameOf(rows[i]).Some? ==> Mismatched(rows[i], Expected(start, rows, i)) == {}
  }

  lemma SecondStep(start: Store, rows: seq<SourceRow>, n: nat)
    requires Valid(start) && DistinctNames(rows) && n < |rows|
    requires var final := Upsert(start, rows, []).store; After(final, rows, [], n) == Progress(final, [], [], false)
    ensures var final := Upsert(start, rows, []).store;
            && (Settled(start, rows, n) ==> After(final, rows, [], n + 1) == Progress(final, [], [], false))
            && (!Settled(start, rows, n) ==> After(final, rows, [], n + 1).calls != [])
  {
    hide Mismatched, Upsert, Expected, UpdateData, Target, UpdateReply, UpdateStore;
    var final := Upsert(start, rows, []).store;
    if NameOf(rows[n]).Some? {
      UpsertConverges(start, rows, n);
      var payload := UpdateData(rows[n], Expected(start, rows, n));
      assert payload == map[] <==> payload.Keys == {};
    }
  }

  lemma {:induction false} QuietSoFar(start: Store, rows: seq<SourceRow>, n: nat)
    requires Valid(start) && DistinctNames(rows) && n <= |rows|
    requires forall i :: 0 <= i < n ==> Settled(start, rows, i)
    ensures var final := Upsert(start, rows, []).store; After(final, rows, [], n) == Progress(final, [], [], false)
  {
    hide Settled, RowStep, Upsert;
    if n > 0 {
      QuietSoFar(start, rows, n - 1);
      SecondStep(start, rows, n - 1);
    }
  }

  lemma CallsStay(snap: seq<Entity>, p: Progress, row: SourceRow, ops: seq<ForeignOp>)
    requires p.calls != []
    ensures RowStep(snap, p, row, ops).calls != []
  {
  }

  lemma {:induction false} LoudFromThen(start: Store, rows: seq<SourceRow>, n: nat, i: nat)
    requires Valid(start) && DistinctNames(rows) && i < n <= |rows| && !Settled(start, rows, i)
    ensures After(Upsert(start, rows, []).store, rows, [], n).calls != []
  {
    hide Settled, Upsert, Valid, DistinctNames, RowStep;
    var final := Upsert(start, rows, []).store;
    if k :| 0 <= k < n - 1 && !Settled(start, rows, k) {
      LoudFromThen(start, rows, n - 1, k);
      CallsStay(final.rows, After(final, rows, [], n - 1), rows[n - 1], OpsAt([], n - 1));
    } else {
      QuietSoFar(start, rows, n - 1);
      SecondStep(start, rows, n - 1);
    }
  }

  /** An immediate second run sends nothing, inserts nothing and changes
      nothing exactly when the reserved columns of every labelled row read as
      those of the entity it ends with; rows without such columns always do. */
  lemma SecondRunQuietIff(start: Store, rows: seq<SourceRow>)
    requires Valid(start) && DistinctNames(rows)
    ensures var final := Upsert(start, rows, []).store;
            Upsert(final, rows, []) == Progress(final, [], [], false)
            <==> forall i :: 0 <= i < |rows| ==> Settled(start, rows, i)
  {
    hide Settled, After;
    if forall i :: 0 <= i < |rows| ==> Settled(start, rows, i) {
      QuietSoFar(start, rows, |rows|);
      assert OpsAt([], |rows|) == [];
    } else {
      var i :| 0 <= i < |rows| && !Settled(start, rows, i);
      LoudFromThen(start, rows, |rows|, i);
    }
  }

  lemma PlainRowsSettle(start: Store, rows: seq<SourceRow>, i: nat)
    requires i < |rows| && forall k :: k in RESERVED ==> k !in rows[i]
    ensures Settled(start, rows, i)
  {
  }

  /** Rows without reserved columns, such as the ones built from features,
      always leave a second run quiet. */
  lemma PlainRowsAreQuiet(start: Store, rows: seq<SourceRow>)
    requires Valid(start) && DistinctNames(rows)
    requires forall i, k :: 0 <= i < |rows| && k in RESERVED ==> k !in rows[i]
    ensures var final := Upsert(start, rows, []).store;
            Upsert(final, rows, []) == Progress(final, [], [], false)
  {
    forall i | 0 <= i < |rows|
      ensures Settled(start, rows, i)
    {
      PlainRowsSettle(start, rows, i);
    }
    SecondRunQuietIff(start, rows);
  }
}
