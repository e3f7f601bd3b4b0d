/** A dataset on ODK Central as a client sees it: versioned entities, updates
    refused when their base version is stale, and other writers at work. */
module EntityStore {
  import opened Text

  /** `name` is the entity's label. A property cell may be null: the table
      lists properties that an entity has never been given. */
  datatype Entity = Entity(uuid: nat, name: string, data: map<string, Option<string>>, version: nat)

  /** `next` is larger than every uuid ever used, so none is used twice. */
  datatype Store = Store(rows: seq<Entity>, next: nat)

  predicate Valid(s: Store) {
    && (forall i :: 0 <= i < |s.rows| ==> s.rows[i].uuid < s.next)
    && (forall i, j :: 0 <= i < j < |s.rows| ==> s.rows[i].uuid != s.rows[j].uuid)
  }

  function IndexOf(rows: seq<Entity>, uuid: nat): (r: Option<nat>)
    ensures r.Some? ==> r.value < |rows| && rows[r.value].uuid == uuid
    ensures r.None? ==> forall i :: 0 <= i < |rows| ==> rows[i].uuid != uuid
  {
    if rows == [] then None
    else if rows[|rows| - 1].uuid == uuid then Some(|rows| - 1)
    else IndexOf(rows[..|rows| - 1], uuid)
  }

  function Find(s: Store, uuid: nat): Option<Entity> {
    var i := IndexOf(s.rows, uuid);
    if i.Some? then Some(s.rows[i.value]) else None
  }

  lemma FindAt(s: Store, i: nat)
    requires Valid(s) && i < |s.rows|
    ensures IndexOf(s.rows, s.rows[i].uuid) == Some(i) && Find(s, s.rows[i].uuid) == Some(s.rows[i])
  {
  }

  function Texts(data: map<string, string>): map<string, Option<string>> {
    map k | k in data :: Some(data[k])
  }

  /** A write to one entity: the given cells change and the version grows. */
  function Written(e: Entity, name: string, data: map<string, string>): Entity {
    e.(name := name, data := e.data + Texts(data), version := e.version + 1)
  }

  // ---- the requests of this client ----

  datatype Reply = Accepted | VersionConflict | NotFound

  function UpdateReply(s: Store, uuid: nat, baseVersion: nat): Reply {
    var e := Find(s, uuid);
    if e.None? then NotFound else if e.value.version != baseVersion then VersionConflict else Accepted
  }

  function UpdateStore(s: Store, uuid: nat, name: string, data: map<string, string>, baseVersion: nat): Store {
    if UpdateReply(s, uuid, baseVersion) != Accepted then s
    else
      var i := IndexOf(s.rows, uuid).value;
      s.(rows := s.rows[i := Written(s.rows[i], name, data)])
  }

  /** The entity stored for an inserted source row. */
  function Created(uuid: nat, row: map<string, string>): Entity {
    Entity(uuid, if "label" in row then row["label"] else "", Texts(row - {"label"}), 1)
  }

  function InsertAll(s: Store, rows: seq<map<string, string>>): Store
    decreases |rows|
  {
    if rows == [] then s
    else InsertAll(Store(s.rows + [Created(s.next, rows[0])], s.next + 1), rows[1..])
  }

  // ---- other writers ----

  datatype ForeignOp =
    | Write(uuid: nat, name: string, data: map<string, string>)
    | Create(name: string, data: map<string, string>)
    | Delete(uuid: nat)

  function Foreign(s: Store, op: ForeignOp): Store {
    match op
    case Write(uuid, name, data) =>
      var i := IndexOf(s.rows, uuid);
      if i.None? then s else s.(rows := s.rows[i.value := Written(s.rows[i.value], name, data)])
    case Create(name, data) =>
      Store(s.rows + [Entity(s.next, name, Texts(data), 1)], s.next + 1)
    case Delete(uuid) =>
      var i := IndexOf(s.rows, uuid);
      if i.None? then s else s.(rows := s.rows[..i.value] + s.rows[i.value + 1..])
  }

  function ForeignAll(s: Store, ops: seq<ForeignOp>): Store {
    if ops == [] then s else Foreign(ForeignAll(s, ops[..|ops| - 1]), ops[|ops| - 1])
  }

  /** What a foreign operation does to the entity of one uuid. */
  function ForeignOn(e: Option<Entity>, uuid: nat, op: ForeignOp): Option<Entity> {
    match op
    case Write(target, name, data) =>
      if target == uuid && e.Some? then Some(Written(e.value, name, data)) else e
    case Create(_, _) => e
    case Delete(target) => if target == uuid then None else e
  }

  function ForeignAllOn(e: Option<Entity>, uuid: nat, ops: seq<ForeignOp>): Option<Entity> {
    if ops == [] then e
    else ForeignOn(ForeignAllOn(e, uuid, ops[..|ops| - 1]), uuid, ops[|ops| - 1])
  }

  lemma FindUnique(s: Store, i: nat, uuid: nat)
    requires i < |s.rows| && s.rows[i].uuid == uuid
    requires forall j :: 0 <= j < |s.rows| && j != i ==> s.rows[j].uuid != uuid
    ensures Find(s, uuid) == Some(s.rows[i])
  {
  }

  lemma FindMissing(s: Store, uuid: nat)
    requires forall j :: 0 <= j < |s.rows| ==> s.rows[j].uuid != uuid
    ensures Find(s, uuid) == None
  {
  }

  lemma DeleteByEntity(s: Store, target: nat, uuid: nat)
    requires Valid(s)
    ensures Valid(Foreign(s, Delete(target)))
    ensures Find(Foreign(s, Delete(target)), uuid) == if target == uuid then None else Find(s, uuid)
  {
    var i := IndexOf(s.rows, target);
    if i.Some? {
      var s' := Foreign(s, Delete(target));
      forall j | 0 <= j < |s'.rows|
        ensures s'.rows[j] == s.rows[if j < i.value then j else j + 1]
      {
      }
      var at := IndexOf(s.rows, uuid);
      if at.None? || target == uuid { FindMissing(s', uuid); }
      else { FindUnique(s', if at.value < i.value then at.value else at.value - 1, uuid); }
    }
  }

  lemma WriteByEntity(s: Store, target: nat, name: string, data: map<string, string>, uuid: nat)
    requires Valid(s)
    ensures Valid(Foreign(s, Write(target, name, data)))
    ensures Find(Foreign(s, Write(target, name, data)), uuid)
            == ForeignOn(Find(s, uuid), uuid, Write(target, name, data))
  {
    var s' := Foreign(s, Write(target, name, data));
    var at := IndexOf(s.rows, uuid);
    if at.Some? { FindUnique(s', at.value, uuid); } else { FindMissing(s', uuid); }
  }

  lemma CreateByEntity(s: Store, e: Entity, uuid: nat)
    requires Valid(s) && e.uuid == s.next
    ensures var s' := Store(s.rows + [e], s.next + 1);
            Valid(s') && (uuid < s.next ==> Find(s', uuid) == Find(s, uuid))
  {
    var s' := Store(s.rows + [e], s.next + 1);
    if uuid < s.next {
      var at := IndexOf(s.rows, uuid);
      if at.Some? { FindUnique(s', at.value, uuid); } else { FindMissing(s', uuid); }
    }
  }

  /** Stores are seen through single entities: an operation keeps the store
      valid and acts on every existing uuid on its own. */
  lemma ForeignByEntity(s: Store, op: ForeignOp, uuid: nat)
    requires Valid(s)
    ensures Valid(Foreign(s, op)) && s.next <= Foreign(s, op).next
    ensures uuid < s.next ==> Find(Foreign(s, op), uuid) == ForeignOn(Find(s, uuid), uuid, op)
  {
    match op
    case Write(target, name, data) => WriteByEntity(s, target, name, data, uuid);
    case Create(name, data) => CreateByEntity(s, Entity(s.next, name, Texts(data), 1), uuid);
    case Delete(target) => DeleteByEntity(s, target, uuid);
  }

  lemma {:induction false} ForeignAllByEntity(s: Store, ops: seq<ForeignOp>, uuid: nat)
    requires Valid(s)
    ensures Valid(ForeignAll(s, ops)) && s.next <= ForeignAll(s, ops).next
    ensures uuid < s.next ==> Find(ForeignAll(s, ops), uuid) == ForeignAllOn(Find(s, uuid), uuid, ops)
  {
    if ops != [] {
      ForeignAllByEntity(s, ops[..|ops| - 1], uuid);
      ForeignByEntity(ForeignAll(s, ops[..|ops| - 1]), ops[|ops| - 1], uuid);
    }
  }

  /** Versions only grow, and an entity whose version did not grow was not
      written. */
  lemma {:induction false} ForeignVersions(e: Option<Entity>, uuid: nat, ops: seq<ForeignOp>)
    ensures var e' := ForeignAllOn(e, uuid, ops);
            && (e'.Some? ==> e.Some? && e'.value.version >= e.value.version)
            && (e'.Some? && e'.value.version == e.value.version ==> e' == e)
  {
    if ops != [] { ForeignVersions(e, uuid, ops[..|ops| - 1]); }
  }

  lemma UpdateByEntity(s: Store, uuid: nat, name: string, data: map<string, string>, baseVersion: nat, other: nat)
    requires Valid(s)
    ensures var s' := UpdateStore(s, uuid, name, data, baseVersion);
            && Valid(s') && s'.next == s.next && |s'.rows| == |s.rows|
            && (other != uuid || UpdateReply(s, uuid, baseVersion) != Accepted ==> Find(s', other) == Find(s, other))
            && (other == uuid && UpdateReply(s, uuid, baseVersion) == Accepted ==>
                  Find(s, uuid).Some? && Find(s', other) == Some(Written(Find(s, uuid).value, name, data)))
  {
    var s' := UpdateStore(s, uuid, name, data, baseVersion);
    var at := IndexOf(s.rows, other);
    if at.Some? { FindUnique(s', at.value, other); } else { FindMissing(s', other); }
  }

  /** A bulk insert leaves the entities that were there alone. */
  lemma {:induction false} InsertByEntity(s: Store, rows: seq<map<string, string>>, uuid: nat)
    requires Valid(s)
    ensures Valid(InsertAll(s, rows)) && s.next <= InsertAll(s, rows).next
    ensures uuid < s.next ==> Find(InsertAll(s, rows), uuid) == Find(s, uuid)
    decreases |rows|
  {
    if rows != [] {
      var e := Created(s.next, rows[0]);
      CreateByEntity(s, e, uuid);
      InsertByEntity(Store(s.rows + [e], s.next + 1), rows[1..], uuid);
    }
  }
}
