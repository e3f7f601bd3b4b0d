/** The order the layer panel should have: known layers by priority, ties in
    their old order, everything that is not a layer last. */
module LayerSort {
  import opened Text
  import opened Wording

  datatype Layer = Layer(id: string, name: string)

  /** The priorities of the field projects and of the drone projects. */
  datatype Table = FieldTable | DroneTable

  function Priority(table: Table, layer: Layer): int {
    var name := Lower(Trim(layer.name));
    match table
    case FieldTable =>
      if name == "survey" then 0
      else if name == "tasks" || name == "dtm-tasks" then 1
      else if name == "project-area" then 50
      else if name == "basemap" then 90
      else if name == "openstreetmap" then 100
      else 10
    case DroneTable =>
      if name == "tasks" || name == "dtm-tasks" || name == "survey" then 1
      else if name == "basemap" then 90
      else if name == "openstreetmap" then 100
      else if name == "dem" then 95
      else 10
  }

  /** x before the first layer of no smaller priority. */
  function Place(table: Table, x: Layer, sorted: seq<Layer>): seq<Layer>
    decreases |sorted|
  {
    if sorted == [] || Priority(table, x) <= Priority(table, sorted[0]) then [x] + sorted
    else [sorted[0]] + Place(table, x, sorted[1..])
  }

  function Sort(table: Table, layers: seq<Layer>): seq<Layer>
    decreases |layers|
  {
    if layers == [] then [] else Place(table, layers[0], Sort(table, layers[1..]))
  }

  predicate Sorted(table: Table, layers: seq<Layer>) {
    forall i, j :: 0 <= i < j < |layers| ==> Priority(table, layers[i]) <= Priority(table, layers[j])
  }

  /** The layers of one priority, in order. */
  function OfPriority(table: Table, layers: seq<Layer>, p: int): seq<Layer>
    decreases |layers|
  {
    if layers == [] then []
    else (if Priority(table, layers[0]) == p then [layers[0]] else []) + OfPriority(table, layers[1..], p)
  }

  lemma {:induction false} PlaceKeeps(table: Table, x: Layer, sorted: seq<Layer>)
    ensures multiset(Place(table, x, sorted)) == multiset{x} + multiset(sorted)
    ensures forall y :: y in Place(table, x, sorted) <==> y == x || y in sorted
    decreases |sorted|
  {
    hide Priority;
    if sorted != [] {
      PlaceKeeps(table, x, sorted[1..]);
      assert sorted == [sorted[0]] + sorted[1..];
    }
  }

  lemma {:induction false} PlaceIsSorted(table: Table, x: Layer, sorted: seq<Layer>)
    requires Sorted(table, sorted)
    ensures Sorted(table, Place(table, x, sorted))
    decreases |sorted|
  {
    hide Priority;
    if sorted != [] && Priority(table, x) > Priority(table, sorted[0]) {
      var rest := Place(table, x, sorted[1..]);
      PlaceIsSorted(table, x, sorted[1..]);
      PlaceKeeps(table, x, sorted[1..]);
      forall j | 0 <= j < |rest|
        ensures Priority(table, sorted[0]) <= Priority(table, rest[j])
      {
        assert rest[j] in rest;
      }
    }
  }

  /** Layers with ids of their own. */
  predicate Distinct(layers: seq<Layer>) {
    forall i, j :: 0 <= i < j < |layers| ==> layers[i].id != layers[j].id
  }

  lemma {:induction false} PlaceIsDistinct(table: Table, x: Layer, sorted: seq<Layer>)
    requires Distinct(sorted) && forall y :: y in sorted ==> y.id != x.id
    ensures Distinct(Place(table, x, sorted))
    decreases |sorted|
  {
    hide Priority;
    if sorted != [] && Priority(table, x) > Priority(table, sorted[0]) {
      var rest := Place(table, x, sorted[1..]);
      PlaceIsDistinct(table, x, sorted[1..]);
      PlaceKeeps(table, x, sorted[1..]);
      forall j | 0 <= j < |rest|
        ensures sorted[0].id != rest[j].id
      {
        assert rest[j] in rest;
      }
    }
  }

  lemma {:induction false} PlaceIsStable(table: Table, x: Layer, sorted: seq<Layer>, p: int)
    requires Sorted(table, sorted)
    ensures OfPriority(table, Place(table, x, sorted), p) == OfPriority(table, [x] + sorted, p)
    decreases |sorted|
  {
    hide Priority;
    assert ([x] + sorted)[1..] == sorted;
    if sorted != [] && Priority(table, x) > Priority(table, sorted[0]) {
      PlaceIsStable(table, x, sorted[1..], p);
      assert ([x] + sorted[1..])[1..] == sorted[1..];
      assert ([sorted[0]] + Place(table, x, sorted[1..]))[1..] == Place(table, x, sorted[1..]);
    }
  }

  /** The sort orders by priority, keeps the layers, and keeps the order of
      layers of equal priority. */
  lemma {:induction false} SortIsStable(table: Table, layers: seq<Layer>)
    ensures Sorted(table, Sort(table, layers))
    ensures multiset(Sort(table, layers)) == multiset(layers)
    ensures forall p :: OfPriority(table, Sort(table, layers), p) == OfPriority(table, layers, p)
    decreases |layers|
  {
    hide Priority;
    if layers != [] {
      var rest := Sort(table, layers[1..]);
      SortIsStable(table, layers[1..]);
      PlaceIsSorted(table, layers[0], rest);
      PlaceKeeps(table, layers[0], rest);
      assert layers == [layers[0]] + layers[1..];
      forall p
        ensures OfPriority(table, Sort(table, layers), p) == OfPriority(table, layers, p)
      {
        PlaceIsStable(table, layers[0], rest, p);
        assert ([layers[0]] + rest)[1..] == rest;
      }
    }
  }

  lemma {:induction false} OfPriorityHolds(table: Table, layers: seq<Layer>, p: int)
    ensures forall x :: x in OfPriority(table, layers, p) <==> x in layers && Priority(table, x) == p
    decreases |layers|
  {
    if layers != [] {
      OfPriorityHolds(table, layers[1..], p);
      assert layers == [layers[0]] + layers[1..];
    }
  }

  lemma {:induction false} SortIsDistinct(table: Table, layers: seq<Layer>)
    requires Distinct(layers)
    ensures Distinct(Sort(table, layers))
    ensures forall y :: y in Sort(table, layers) <==> y in layers
    decreases |layers|
  {
    hide Priority;
    if layers != [] {
      SortIsDistinct(table, layers[1..]);
      PlaceIsDistinct(table, layers[0], Sort(table, layers[1..]));
      PlaceKeeps(table, layers[0], Sort(table, layers[1..]));
      assert layers == [layers[0]] + layers[1..];
    }
  }

  /** In a sorted sequence the first layer is the first of its priority, and
      no layer has a smaller one. */
  lemma FirstIsLeast(table: Table, a: seq<Layer>, x: Layer)
    requires Sorted(table, a) && x in a
    ensures Priority(table, a[0]) <= Priority(table, x)
  {
    hide Priority;
    var i :| 0 <= i < |a| && a[i] == x;
  }

  /** Being ordered with the same layers of each priority in the same order
      pins the result down. */
  lemma {:induction false} StableSortIsUnique(table: Table, a: seq<Layer>, b: seq<Layer>)
    requires Sorted(table, a) && Sorted(table, b)
    requires forall p :: OfPriority(table, a, p) == OfPriority(table, b, p)
    ensures a == b
    decreases |a|
  {
    hide Priority;
    if a == [] {
      if b != [] { SameFirst(table, b, a); }
    } else {
      SameFirst(table, a, b);
      forall r
        ensures OfPriority(table, a[1..], r) == OfPriority(table, b[1..], r)
      {
        TailsAgree(table, a, b, r);
      }
      StableSortIsUnique(table, a[1..], b[1..]);
    }
  }

  lemma TailsAgree(table: Table, a: seq<Layer>, b: seq<Layer>, p: int)
    requires a != [] && b != [] && a[0] == b[0]
    requires OfPriority(table, a, p) == OfPriority(table, b, p)
    ensures OfPriority(table, a[1..], p) == OfPriority(table, b[1..], p)
  {
    hide Priority;
    var first := if Priority(table, a[0]) == p then [a[0]] else [];
    assert OfPriority(table, a[1..], p) == OfPriority(table, a, p)[|first|..];
    assert OfPriority(table, b[1..], p) == OfPriority(table, b, p)[|first|..];
  }

  lemma SameFirst(table: Table, a: seq<Layer>, b: seq<Layer>)
    requires Sorted(table, a) && Sorted(table, b) && a != []
    requires forall p :: OfPriority(table, a, p) == OfPriority(table, b, p)
    ensures b != [] && a[0] == b[0]
  {
    hide Priority;
    var p := Priority(table, a[0]);
    OfPriorityHolds(table, a, p);
    OfPriorityHolds(table, b, p);
    assert a[0] in OfPriority(table, b, p);
    FirstIsLeast(table, b, a[0]);
    var q := Priority(table, b[0]);
    OfPriorityHolds(table, a, q);
    OfPriorityHolds(table, b, q);
    assert b[0] in OfPriority(table, a, q);
    FirstIsLeast(table, a, b[0]);
    assert OfPriority(table, a, p)[0] == a[0] && OfPriority(table, b, p)[0] == b[0];
  }

  /** Sorting what is sorted changes nothing. */
  lemma SortIsIdempotent(table: Table, layers: seq<Layer>)
    ensures Sort(table, Sort(table, layers)) == Sort(table, layers)
  {
    var once := Sort(table, layers);
    SortIsStable(table, layers);
    SortIsStable(table, once);
    StableSortIsUnique(table, Sort(table, once), once);
  }

  // ---- where an appended layer ends up ----

  lemma {:induction false} OfPrioritySnoc(table: Table, layers: seq<Layer>, x: Layer)
    ensures OfPriority(table, layers + [x], Priority(table, x)) == OfPriority(table, layers, Priority(table, x)) + [x]
    decreases |layers|
  {
    hide Priority;
    var p := Priority(table, x);
    if layers == [] {
      assert [] + [x] == [x] && [x][1..] == [];
    } else {
      OfPrioritySnoc(table, layers[1..], x);
      assert (layers + [x])[1..] == layers[1..] + [x] && (layers + [x])[0] == layers[0];
      var first := if Priority(table, layers[0]) == p then [layers[0]] else [];
      assert OfPriority(table, layers, p) == first + OfPriority(table, layers[1..], p);
      assert OfPriority(table, layers + [x], p) == first + OfPriority(table, layers[1..] + [x], p);
    }
  }

  lemma {:induction false} LastOfPriority(table: Table, layers: seq<Layer>, p: int) returns (i: nat)
    requires OfPriority(table, layers, p) != []
    ensures i < |layers| && layers[i] == OfPriority(table, layers, p)[|OfPriority(table, layers, p)| - 1]
    ensures Priority(table, layers[i]) == p
    ensures forall j :: i < j < |layers| ==> Priority(table, layers[j]) != p
    decreases |layers|
  {
    hide Priority;
    if OfPriority(table, layers[1..], p) == [] {
      i := 0;
      OfPriorityHolds(table, layers[1..], p);
      assert forall j :: 0 < j < |layers| ==> layers[j] == layers[1..][j - 1] && layers[j] in layers[1..];
    } else {
      var k := LastOfPriority(table, layers[1..], p);
      i := k + 1;
      assert forall j :: i < j < |layers| ==> layers[j] == layers[1..][j - 1];
    }
  }

  /** A layer appended last is sorted behind every layer of its own or a
      smaller priority number, and before all others. */
  lemma AppendedLayerPlace(table: Table, layers: seq<Layer>, x: Layer) returns (i: nat)
    ensures i < |Sort(table, layers + [x])| && Sort(table, layers + [x])[i] == x
    ensures forall j :: 0 <= j < |Sort(table, layers + [x])| && j != i ==>
      (j < i <==> Priority(table, Sort(table, layers + [x])[j]) <= Priority(table, x))
  {
    hide Priority;
    SortIsStable(table, layers + [x]);
    OfPrioritySnoc(table, layers, x);
    i := LastOfPriority(table, Sort(table, layers + [x]), Priority(table, x));
  }

  // ---- the order told by the layers' names ----

  /** Which group of layers, counted from the top, a layer belongs to by its
      name, in any case and with white space around it. Field projects: survey,
      tasks, the layers no rule names, project-area, basemap, openstreetmap.
      Drone projects: tasks and survey, the layers no rule names, basemap, dem,
      openstreetmap. */
  ghost function Group(table: Table, layer: Layer): nat {
    match table
    case FieldTable =>
      if NamedAs(layer.name, "survey") then 0
      else if NamedAs(layer.name, "tasks") || NamedAs(layer.name, "dtm-tasks") then 1
      else if NamedAs(layer.name, "project-area") then 3
      else if NamedAs(layer.name, "basemap") then 4
      else if NamedAs(layer.name, "openstreetmap") then 5
      else 2
    case DroneTable =>
      if NamedAs(layer.name, "tasks") || NamedAs(layer.name, "dtm-tasks") || NamedAs(layer.name, "survey") then 0
      else if NamedAs(layer.name, "basemap") then 2
      else if NamedAs(layer.name, "dem") then 3
      else if NamedAs(layer.name, "openstreetmap") then 4
      else 1
  }

  /** The names the rules know, read as they are. */
  lemma NamesAre(name: string)
    ensures Lower(Trim(name)) == "survey" <==> NamedAs(name, "survey")
    ensures Lower(Trim(name)) == "tasks" <==> NamedAs(name, "tasks")
    ensures Lower(Trim(name)) == "dtm-tasks" <==> NamedAs(name, "dtm-tasks")
    ensures Lower(Trim(name)) == "project-area" <==> NamedAs(name, "project-area")
    ensures Lower(Trim(name)) == "basemap" <==> NamedAs(name, "basemap")
    ensures Lower(Trim(name)) == "openstreetmap" <==> NamedAs(name, "openstreetmap")
    ensures Lower(Trim(name)) == "dem" <==> NamedAs(name, "dem")
  {
    hide Lower, Trim, NamedAs;
    TrimmedIs(name, "survey");
    TrimmedIs(name, "tasks");
    TrimmedIs(name, "dtm-tasks");
    TrimmedIs(name, "project-area");
    TrimmedIs(name, "basemap");
    TrimmedIs(name, "openstreetmap");
    TrimmedIs(name, "dem");
  }

  /** The priorities order the layers as the groups do. */
  lemma GroupsOrder(table: Table, a: Layer, b: Layer)
    ensures Priority(table, a) <= Priority(table, b) <==> Group(table, a) <= Group(table, b)
  {
    hide Lower, Trim, NamedAs;
    NamesAre(a.name);
    NamesAre(b.name);
  }

  /** The sorted layers stand group by group, and within a group in their old
      order. */
  lemma SortedByName(table: Table, layers: seq<Layer>)
    ensures var sorted := Sort(table, layers);
            && multiset(sorted) == multiset(layers)
            && (forall i, j :: 0 <= i < j < |sorted| ==> Group(table, sorted[i]) <= Group(table, sorted[j]))
            && forall x :: OfGroup(table, sorted, Group(table, x)) == OfGroup(table, layers, Group(table, x))
  {
    hide Priority, Group, Sort;
    var sorted := Sort(table, layers);
    SortIsStable(table, layers);
    forall i, j | 0 <= i < j < |sorted|
      ensures Group(table, sorted[i]) <= Group(table, sorted[j])
    {
      GroupsOrder(table, sorted[i], sorted[j]);
    }
    forall x
      ensures OfGroup(table, sorted, Group(table, x)) == OfGroup(table, layers, Group(table, x))
    {
      GroupIsPriority(table, sorted, x);
      GroupIsPriority(table, layers, x);
    }
  }

  /** The layers of one group, in order. */
  ghost function OfGroup(table: Table, layers: seq<Layer>, group: nat): seq<Layer>
    decreases |layers|
  {
    if layers == [] then []
    else (if Group(table, layers[0]) == group then [layers[0]] else []) + OfGroup(table, layers[1..], group)
  }

  lemma {:induction false} GroupIsPriority(table: Table, layers: seq<Layer>, x: Layer)
    ensures OfGroup(table, layers, Group(table, x)) == OfPriority(table, layers, Priority(table, x))
    decreases |layers|
  {
    hide Priority, Group;
    if layers != [] {
      GroupsOrder(table, layers[0], x);
      GroupsOrder(table, x, layers[0]);
      GroupIsPriority(table, layers[1..], x);
    }
  }
}
