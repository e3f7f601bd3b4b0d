/** Reordering the root of the layer tree in place: one node at a time is
    inserted anew at its target and removed from where it was. */
module LayerOrder {
  import opened Text
  import opened Wording
  import opened LayerSort

  /** A child of the root by object identity (`tag`): a layer's node, or one
      without a layer, such as a group, with the layer ids nested in it. */
  datatype Node = Node(tag: nat, layer: Option<Layer>, nested: set<string>)

  /** What matters of a child: its layer, or which other node it is. */
  datatype Slot = OfLayer(layer: Layer) | OtherNode(node: Node)

  function SlotOf(n: Node): Slot {
    if n.layer.Some? then OfLayer(n.layer.value) else OtherNode(n)
  }

  function Shape(children: seq<Node>): (r: seq<Slot>)
    ensures |r| == |children|
    ensures forall i :: 0 <= i < |r| ==> r[i] == SlotOf(children[i])
  {
    seq(|children|, i requires 0 <= i < |children| => SlotOf(children[i]))
  }

  function Layers(shape: seq<Slot>): seq<Layer>
    decreases |shape|
  {
    if shape == [] then []
    else if shape[0].OfLayer? then [shape[0].layer] + Layers(shape[1..])
    else Layers(shape[1..])
  }

  function Slots(layers: seq<Layer>): (r: seq<Slot>)
    ensures |r| == |layers|
    ensures forall i :: 0 <= i < |r| ==> r[i] == OfLayer(layers[i])
  {
    seq(|layers|, i requires 0 <= i < |layers| => OfLayer(layers[i]))
  }

  /** The slots whose layer is not among `placed`. */
  function Minus(shape: seq<Slot>, placed: set<string>): seq<Slot>
    decreases |shape|
  {
    if shape == [] then []
    else if shape[0].OfLayer? && shape[0].layer.id in placed then Minus(shape[1..], placed)
    else [shape[0]] + Minus(shape[1..], placed)
  }

  function Others(shape: seq<Slot>): seq<Slot>
    decreases |shape|
  {
    if shape == [] then []
    else if shape[0].OtherNode? then [shape[0]] + Others(shape[1..])
    else Others(shape[1..])
  }

  /** The order asked for: layers by stable priority, then all other nodes. */
  function Normal(table: Table, shape: seq<Slot>): seq<Slot> {
    Slots(Sort(table, Layers(shape))) + Others(shape)
  }

  predicate DistinctIds(shape: seq<Slot>) {
    forall i, j :: 0 <= i < j < |shape| && shape[i].OfLayer? && shape[j].OfLayer? ==>
      shape[i].layer.id != shape[j].layer.id
  }

  function Ids(layers: seq<Layer>): set<string> {
    set x | x in layers :: x.id
  }

  // ---- filtering ----

  lemma {:induction false} MinusMinus(shape: seq<Slot>, a: set<string>, b: set<string>)
    ensures Minus(Minus(shape, a), b) == Minus(shape, a + b)
    decreases |shape|
  {
    if shape != [] {
      MinusMinus(shape[1..], a, b);
      var rest := Minus(shape[1..], a);
      if !(shape[0].OfLayer? && shape[0].layer.id in a) {
        assert ([shape[0]] + rest)[1..] == rest;
      }
    }
  }

  lemma {:induction false} MinusNothing(shape: seq<Slot>, placed: set<string>)
    requires forall i :: 0 <= i < |shape| && shape[i].OfLayer? ==> shape[i].layer.id !in placed
    ensures Minus(shape, placed) == shape
    decreases |shape|
  {
    if shape != [] { MinusNothing(shape[1..], placed); }
  }

  /** Taking out one layer, wherever it stands. */
  lemma {:induction false} MinusOne(shape: seq<Slot>, at: nat)
    requires at < |shape| && shape[at].OfLayer? && DistinctIds(shape)
    ensures Minus(shape, {shape[at].layer.id}) == shape[..at] + shape[at + 1..]
    decreases |shape|
  {
    if at == 0 {
      MinusNothing(shape[1..], {shape[0].layer.id});
    } else {
      var id := shape[at].layer.id;
      MinusOne(shape[1..], at - 1);
      assert shape[1..][at - 1] == shape[at];
      assert shape[..at] == [shape[0]] + shape[1..][..at - 1] && shape[at + 1..] == shape[1..][at..];
      assert Minus(shape, {id}) == [shape[0]] + Minus(shape[1..], {id});
    }
  }

  lemma {:induction false} MinusAll(shape: seq<Slot>, placed: set<string>)
    requires forall x :: x in Layers(shape) ==> x.id in placed
    ensures Minus(shape, placed) == Others(shape)
    decreases |shape|
  {
    if shape != [] {
      assert shape[0].OfLayer? ==> shape[0].layer in Layers(shape);
      MinusAll(shape[1..], placed);
    }
  }

  lemma {:induction false} LayersHold(shape: seq<Slot>, x: Layer)
    ensures x in Layers(shape) <==> OfLayer(x) in shape
    decreases |shape|
  {
    if shape != [] {
      LayersHold(shape[1..], x);
      assert shape == [shape[0]] + shape[1..];
    }
  }

  lemma {:induction false} LayersDistinct(shape: seq<Slot>)
    requires DistinctIds(shape)
    ensures Distinct(Layers(shape))
    decreases |shape|
  {
    if shape != [] {
      LayersDistinct(shape[1..]);
      if shape[0].OfLayer? {
        forall x | x in Layers(shape[1..])
          ensures x.id != shape[0].layer.id
        {
          LayersHold(shape[1..], x);
          var k :| 0 <= k < |shape[1..]| && shape[1..][k] == OfLayer(x);
          assert shape[1 + k] == OfLayer(x);
        }
      }
    }
  }

  lemma {:induction false} MinusHolds(shape: seq<Slot>, placed: set<string>, x: Slot)
    ensures x in Minus(shape, placed) <==> x in shape && !(x.OfLayer? && x.layer.id in placed)
    decreases |shape|
  {
    if shape != [] {
      MinusHolds(shape[1..], placed, x);
      assert shape == [shape[0]] + shape[1..];
    }
  }

  lemma {:induction false} SplitNormal(layers: seq<Layer>, others: seq<Slot>)
    requires forall i :: 0 <= i < |others| ==> others[i].OtherNode?
    ensures Layers(Slots(layers) + others) == layers
    ensures Others(Slots(layers) + others) == others
    decreases |layers|, |others|
  {
    var s := Slots(layers) + others;
    if layers != [] {
      SplitNormal(layers[1..], others);
      assert s[1..] == Slots(layers[1..]) + others;
    } else if others != [] {
      SplitNormal([], others[1..]);
      assert s == others && s[1..] == Slots([]) + others[1..];
    }
  }

  lemma {:induction false} OthersAreOther(shape: seq<Slot>)
    ensures forall i :: 0 <= i < |Others(shape)| ==> Others(shape)[i].OtherNode?
    decreases |shape|
  {
    if shape != [] { OthersAreOther(shape[1..]); }
  }

  /** The order asked for is a fixpoint: a second run has nothing to do. */
  lemma NormalIsIdempotent(table: Table, shape: seq<Slot>)
    ensures Normal(table, Normal(table, shape)) == Normal(table, shape)
  {
    OthersAreOther(shape);
    SplitNormal(Sort(table, Layers(shape)), Others(shape));
    SortIsIdempotent(table, Layers(shape));
  }

  // ---- the loop ----

  /** A child that is the layer's node, or a group with one further down. */
  predicate Holds(slot: Slot, id: string) {
    match slot
    case OfLayer(layer) => layer.id == id
    case OtherNode(node) => id in node.nested
  }

  /** Where the tree's depth-first search meets the layer's first node. */
  function FindSlot(shape: seq<Slot>, id: string): (r: Option<nat>)
    ensures r.Some? ==> r.value < |shape| && Holds(shape[r.value], id)
    ensures r.Some? ==> forall i :: 0 <= i < r.value ==> !Holds(shape[i], id)
    ensures r.None? ==> forall i :: 0 <= i < |shape| ==> !Holds(shape[i], id)
  {
    if shape == [] then None
    else if Holds(shape[0], id) then Some(0)
    else
      var rest := FindSlot(shape[1..], id);
      if rest.None? then None else Some(rest.value + 1)
  }

  /** A round moves the layer: its first node is a child of the root, and not
      the one at the target. */
  predicate Moves(shape: seq<Slot>, target: nat, x: Layer) {
    var found := FindSlot(shape, x.id);
    found.Some? && shape[found.value].OfLayer? && found.value != target
  }

  /** A new node for the layer put in at the target, then the old one taken
      out, before it or after it. */
  function InsertRemove(shape: seq<Slot>, x: Layer, target: nat, current: nat): seq<Slot>
    requires target <= |shape| && current < |shape|
  {
    if target <= current then shape[..target] + [OfLayer(x)] + shape[target..current] + shape[current + 1..]
    else shape[..current] + shape[current + 1..target] + [OfLayer(x)] + shape[target..]
  }

  /** One round: a layer whose first node is inside a group is passed over. */
  function Round(shape: seq<Slot>, target: nat, x: Layer): (r: seq<Slot>)
    requires target <= |shape|
    ensures |r| == |shape|
  {
    if Moves(shape, target, x) then InsertRemove(shape, x, target, FindSlot(shape, x.id).value) else shape
  }

  function Rounds(shape: seq<Slot>, desired: seq<Layer>, k: nat): (r: seq<Slot>)
    requires k <= |desired| <= |shape|
    ensures |r| == |shape|
  {
    if k == 0 then shape else Round(Rounds(shape, desired, k - 1), k - 1, desired[k - 1])
  }

  lemma {:induction false} FewerLayers(shape: seq<Slot>)
    ensures |Layers(shape)| <= |shape|
    decreases |shape|
  {
    if shape != [] { FewerLayers(shape[1..]); }
  }

  lemma DesiredFits(table: Table, shape: seq<Slot>)
    ensures |Sort(table, Layers(shape))| <= |shape|
  {
    FewerLayers(shape);
    SortIsStable(table, Layers(shape));
    assert |multiset(Sort(table, Layers(shape)))| == |multiset(Layers(shape))|;
  }

  /** What the whole loop makes of the root. */
  function Reordered(table: Table, shape: seq<Slot>): (r: seq<Slot>)
    ensures |r| == |shape|
  {
    DesiredFits(table, shape);
    var desired := Sort(table, Layers(shape));
    Rounds(shape, desired, |desired|)
  }

  /** One of the first n layers neither stands at its target nor is passed
      over. */
  predicate SomeMoves(shape: seq<Slot>, desired: seq<Layer>, n: nat)
    requires n <= |desired|
  {
    exists k :: 0 <= k < n && Moves(shape, k, desired[k])
  }

  /** Every layer stands at its target already or is passed over. */
  predicate Settled(table: Table, shape: seq<Slot>) {
    var desired := Sort(table, Layers(shape));
    !SomeMoves(shape, desired, |desired|)
  }

  function FindLayer(children: seq<Node>, id: string): (r: Option<nat>)
    ensures r == FindSlot(Shape(children), id)
    decreases |children|
  {
    assert children != [] ==> Shape(children)[1..] == Shape(children[1..]);
    if children == [] then None
    else if Holds(SlotOf(children[0]), id) then Some(0)
    else
      var rest := FindLayer(children[1..], id);
      if rest.None? then None else Some(rest.value + 1)
  }

  class LayerTreeRoot {
    var children: seq<Node>
    var nextTag: nat

    /** Nodes are distinct objects. */
    predicate Valid()
      reads this
    {
      && (forall i :: 0 <= i < |children| ==> children[i].tag < nextTag)
      && (forall i, j :: 0 <= i < j < |children| ==> children[i].tag != children[j].tag)
    }

    constructor (children: seq<Node>, nextTag: nat)
      requires forall i :: 0 <= i < |children| ==> children[i].tag < nextTag
      requires forall i, j :: 0 <= i < j < |children| ==> children[i].tag != children[j].tag
      ensures Valid() && this.children == children
    {
      this.children, this.nextTag := children, nextTag;
    }

    /** Puts a new node for the layer at a position. */
    method InsertLayer(index: nat, layer: Layer)
      requires Valid() && index <= |children|
      modifies this
      ensures Valid()
      ensures children == old(children[..index]) + [Node(old(nextTag), Some(layer), {})] + old(children[index..])
    {
      children := children[..index] + [Node(nextTag, Some(layer), {})] + children[index..];
      nextTag := nextTag + 1;
    }

    /** Removes a child, found by identity. */
    method RemoveChildNode(node: Node, ghost at: nat)
      requires Valid() && at < |children| && children[at] == node
      modifies this
      ensures Valid() && children == old(children[..at]) + old(children[at + 1..])
    {
      var i := 0;
      while children[i].tag != node.tag
        invariant 0 <= i <= at
        decreases at - i
      {
        i := i + 1;
      }
      children := children[..i] + children[i + 1..];
    }

    /** Moves a layer's node: the new one in, the old one out. */
    method MoveNode(layer: Layer, target: nat, current: nat)
      requires Valid() && target <= |children| && current < |children|
      modifies this
      ensures Valid() && Shape(children) == InsertRemove(old(Shape(children)), layer, target, current)
    {
      hide InsertRemove, Shape;
      var node := children[current];
      MovedShape(children, Node(nextTag, Some(layer), {}), layer, target, current);
      InsertLayer(target, layer);
      RemoveChildNode(node, if target <= current then current + 1 else current);
    }

    /** One round of the loop: find the layer's first node; pass over it if it
        is inside a group or where it should be. */
    method PlaceLayer(layer: Layer, target: nat) returns (moved: bool)
      requires Valid() && target <= |children|
      modifies this
      ensures Valid() && Shape(children) == Round(old(Shape(children)), target, layer)
      ensures moved <==> Moves(old(Shape(children)), target, layer)
      ensures !moved ==> children == old(children)
    {
      hide InsertRemove;
      var current := FindLayer(children, layer.id);
      if current.None? { return false; }
      if children[current.value].layer.None? { return false; }
      if current.value == target { return false; }
      MoveNode(layer, target, current.value);
      moved := true;
    }

    /** Sorts the layers of the root by priority and puts them in order, one
        round for each: `changed` says that some layer was moved, which is so
        exactly when not every layer stood at its target or was passed over. */
    method NormalizeRootLayerOrder(table: Table) returns (changed: bool)
      requires Valid()
      modifies this
      ensures Valid() && Shape(children) == Reordered(table, old(Shape(children)))
      ensures changed <==> !Settled(table, old(Shape(children)))
      ensures !changed ==> children == old(children)
    {
      hide Moves, SomeMoves, Round, Shape, Sort;
      ghost var shape := Shape(children);
      var desired := Sort(table, Layers(Shape(children)));
      DesiredFits(table, shape);
      NoneMoves(shape, desired);
      changed := false;
      for target := 0 to |desired|
        invariant Valid() && Shape(children) == Rounds(shape, desired, target)
        invariant changed == SomeMoves(shape, desired, target)
        invariant !changed ==> children == old(children)
      {
        MovesFirst(shape, desired, target);
        var moved := PlaceLayer(desired[target], target);
        changed := changed || moved;
      }
    }
  }

  lemma ShapeConcat(a: seq<Node>, b: seq<Node>)
    ensures Shape(a + b) == Shape(a) + Shape(b)
  {
    hide SlotOf;
  }

  lemma ShapeSlice(children: seq<Node>, from: nat, to: nat)
    requires from <= to <= |children|
    ensures Shape(children[from..to]) == Shape(children)[from..to]
  {
    hide SlotOf;
  }

  /** Inserting the new node and removing the old one, as sequences. */
  lemma MovedShape(children: seq<Node>, n: Node, x: Layer, target: nat, current: nat)
    requires target <= |children| && current < |children| && n.layer == Some(x)
    ensures var inserted := children[..target] + [n] + children[target..];
            var at := if target <= current then current + 1 else current;
            && inserted[at] == children[current]
            && Shape(inserted[..at] + inserted[at + 1..]) == InsertRemove(Shape(children), x, target, current)
  {
    if target <= current {
      MovedForward(children, n, x, target, current);
    } else {
      MovedBack(children, n, x, target, current);
    }
  }

  lemma OneShape(n: Node, x: Layer)
    requires n.layer == Some(x)
    ensures Shape([n]) == [OfLayer(x)]
  {
  }

  lemma MovedForward(children: seq<Node>, n: Node, x: Layer, target: nat, current: nat)
    requires target <= current < |children| && n.layer == Some(x)
    ensures var inserted := children[..target] + [n] + children[target..];
            && inserted[current + 1] == children[current]
            && Shape(inserted[..current + 1] + inserted[current + 2..])
               == InsertRemove(Shape(children), x, target, current)
  {
    hide Shape, SlotOf;
    var inserted := children[..target] + [n] + children[target..];
    var a, b, c := children[0..target], children[target..current], children[current + 1..|children|];
    assert inserted[..current + 1] == a + [n] + b && inserted[current + 2..] == c;
    OneShape(n, x);
    ShapeConcat(a + [n] + b, c);
    ShapeConcat(a + [n], b);
    ShapeConcat(a, [n]);
    ShapeSlice(children, 0, target);
    ShapeSlice(children, target, current);
    ShapeSlice(children, current + 1, |children|);
  }

  lemma MovedBack(children: seq<Node>, n: Node, x: Layer, target: nat, current: nat)
    requires current < target <= |children| && n.layer == Some(x)
    ensures var inserted := children[..target] + [n] + children[target..];
            && inserted[current] == children[current]
            && Shape(inserted[..current] + inserted[current + 1..]) == InsertRemove(Shape(children), x, target, current)
  {
    hide Shape;
    var inserted := children[..target] + [n] + children[target..];
    var a, b, c := children[0..current], children[current + 1..target], children[target..|children|];
    assert inserted[..current] == a && inserted[current + 1..] == b + [n] + c;
    assert a + (b + [n] + c) == a + b + [n] + c;
    OneShape(n, x);
    ShapeConcat(a + b + [n], c);
    ShapeConcat(a + b, [n]);
    ShapeConcat(a, b);
    ShapeSlice(children, 0, current);
    ShapeSlice(children, current + 1, target);
    ShapeSlice(children, target, |children|);
  }

  lemma NoneMoves(shape: seq<Slot>, desired: seq<Layer>)
    ensures !SomeMoves(shape, desired, 0)
  {
  }

  /** As long as no round has moved a layer the root is as it was, so the next
      one moves its layer exactly when it would have at the start. */
  lemma MovesFirst(shape: seq<Slot>, desired: seq<Layer>, n: nat)
    requires n < |desired| <= |shape|
    ensures SomeMoves(shape, desired, n + 1)
            <==> SomeMoves(shape, desired, n) || Moves(Rounds(shape, desired, n), n, desired[n])
  {
    hide Moves;
    if !SomeMoves(shape, desired, n) {
      QuietRounds(shape, desired, n);
    } else {
      var k :| 0 <= k < n && Moves(shape, k, desired[k]);
      assert SomeMoves(shape, desired, n + 1);
    }
  }

  lemma {:induction false} QuietRounds(shape: seq<Slot>, desired: seq<Layer>, n: nat)
    requires n <= |desired| <= |shape|
    requires !SomeMoves(shape, desired, n)
    ensures Rounds(shape, desired, n) == shape
  {
    hide Moves;
    if n > 0 { QuietRounds(shape, desired, n - 1); }
  }

  // ---- when the loop reaches the order asked for ----

  /** No group stands before a root layer that it holds as well. */
  predicate Unblocked(shape: seq<Slot>) {
    forall i, j :: 0 <= i < j < |shape| && shape[i].OtherNode? && shape[j].OfLayer? ==>
      shape[j].layer.id !in shape[i].node.nested
  }

  lemma FindSlotIs(shape: seq<Slot>, at: nat)
    requires at < |shape| && shape[at].OfLayer? && DistinctIds(shape)
    requires forall i :: 0 <= i < at && shape[i].OtherNode? ==> shape[at].layer.id !in shape[i].node.nested
    ensures FindSlot(shape, shape[at].layer.id) == Some(at)
  {
    var id := shape[at].layer.id;
    assert Holds(shape[at], id);
    forall i | 0 <= i < at
      ensures !Holds(shape[i], id)
    {
    }
  }

  lemma MovedUnblocked(shape: seq<Slot>, target: nat, current: nat)
    requires target <= current < |shape| && shape[current].OfLayer? && Unblocked(shape)
    ensures Unblocked(Moved(shape, target, current))
  {
    var moved := Moved(shape, target, current);
    forall i | 0 <= i < |moved|
      ensures moved[i] == shape[Source(target, current, i)]
    {
    }
  }

  /** The rounds of a root where no layer is blocked: the first k layers are
      in place, the rest as before. */
  lemma {:induction false} RoundsPlace(shape: seq<Slot>, desired: seq<Layer>, k: nat)
    requires k <= |desired| <= |shape| && DistinctIds(shape) && Unblocked(shape) && Desired(shape, desired)
    ensures Placed(shape, desired, k, Rounds(shape, desired, k)) && Unblocked(Rounds(shape, desired, k))
  {
    hide Placed, Unblocked, Desired, DistinctIds, Moved, InsertRemove;
    if k == 0 {
      NothingPlaced(shape, desired);
    } else {
      RoundsPlace(shape, desired, k - 1);
      var now := Rounds(shape, desired, k - 1);
      var c := NextToPlace(shape, desired, k - 1, now);
      StepPlaces(shape, desired, k - 1, now, c);
      PlacedIsDistinct(shape, desired, k - 1, now);
      MovedUnblocked(now, k - 1, c);
      RoundIsMoved(now, k - 1, c);
      assert OfLayer(desired[k - 1]).layer == desired[k - 1];
    }
  }

  lemma PlacedIsDistinct(shape: seq<Slot>, desired: seq<Layer>, k: nat, now: seq<Slot>)
    requires Placed(shape, desired, k, now)
    ensures DistinctIds(now)
  {
  }

  lemma RoundIsMoved(now: seq<Slot>, target: nat, c: nat)
    requires target <= c < |now| && now[c].OfLayer?
    requires DistinctIds(now) && Unblocked(now)
    ensures Round(now, target, now[c].layer) == Moved(now, target, c)
  {
    FindSlotIs(now, c);
    if c == target { MovedNowhere(now, c); }
  }

  lemma UnblockedIsNormal(table: Table, shape: seq<Slot>)
    requires DistinctIds(shape) && Unblocked(shape)
    ensures Reordered(table, shape) == Normal(table, shape) && DistinctIds(Reordered(table, shape))
  {
    hide Placed, Desired, Rounds, Unblocked, Normal;
    var desired := Sort(table, Layers(shape));
    DesiredFits(table, shape);
    SortKeeps(table, shape);
    RoundsPlace(shape, desired, |desired|);
    PlacedIsDistinct(shape, desired, |desired|, Rounds(shape, desired, |desired|));
    AllPlaced(table, shape, Rounds(shape, desired, |desired|));
  }

  // ---- a blocked layer ----

  /** Group g stands before layer l, and holds it too. */
  ghost predicate BlockedBy(shape: seq<Slot>, g: Node, l: Layer) {
    l.id in g.nested && exists i, j :: 0 <= i < j < |shape| && shape[i] == OtherNode(g) && shape[j] == OfLayer(l)
  }

  /** Where the slot at i, not the one moved, stands afterwards. */
  function NewPlace(target: nat, current: nat, i: nat): nat
    requires i != current
  {
    if target <= i < current then i + 1 else if current < i < target then i - 1 else i
  }

  lemma NewPlaceOrder(target: nat, current: nat, i: nat, j: nat)
    requires i < j && i != current && j != current
    ensures NewPlace(target, current, i) < NewPlace(target, current, j)
  {
  }

  lemma SlotMovesTo(shape: seq<Slot>, x: Layer, target: nat, current: nat, i: nat)
    requires target <= |shape| && current < |shape| && i < |shape| && i != current
    ensures var moved := InsertRemove(shape, x, target, current);
            && |moved| == |shape| && NewPlace(target, current, i) < |moved|
            && moved[NewPlace(target, current, i)] == shape[i]
  {
    if target <= current {
      assert i < target || target <= i < current || current < i;
    } else {
      assert i < current || current < i < target || target <= i;
    }
  }

  /** Where the slot now at i stood before the move. */
  function OldPlace(target: nat, current: nat, i: nat): nat {
    if target <= current then Source(target, current, i)
    else if i + 1 == target then current
    else if current <= i < target then i + 1 else i
  }

  lemma OldPlaces(shape: seq<Slot>, x: Layer, target: nat, current: nat)
    requires target <= |shape| && current < |shape| && shape[current] == OfLayer(x)
    ensures var moved := InsertRemove(shape, x, target, current);
            && |moved| == |shape|
            && forall i: nat :: i < |moved| ==>
                 OldPlace(target, current, i) < |shape| && moved[i] == shape[OldPlace(target, current, i)]
  {
  }

  lemma OldPlacesDiffer(target: nat, current: nat, i: nat, j: nat)
    requires i != j
    ensures OldPlace(target, current, i) != OldPlace(target, current, j)
  {
  }

  /** Moving a layer keeps the ids distinct, and the slots. */
  lemma InsertRemoveDistinct(shape: seq<Slot>, x: Layer, target: nat, current: nat)
    requires target <= |shape| && current < |shape| && shape[current] == OfLayer(x) && DistinctIds(shape)
    ensures DistinctIds(InsertRemove(shape, x, target, current))
  {
    hide InsertRemove, OldPlace;
    var moved := InsertRemove(shape, x, target, current);
    OldPlaces(shape, x, target, current);
    forall i, j | 0 <= i < j < |moved| && moved[i].OfLayer? && moved[j].OfLayer?
      ensures moved[i].layer.id != moved[j].layer.id
    {
      OldPlacesDiffer(target, current, i, j);
      var k, m := OldPlace(target, current, i), OldPlace(target, current, j);
      assert moved[i] == shape[k] && moved[j] == shape[m];
    }
  }

  lemma InsertRemoveHolds(shape: seq<Slot>, x: Layer, target: nat, current: nat, y: Slot)
    requires target <= |shape| && current < |shape| && shape[current] == OfLayer(x)
    ensures y in InsertRemove(shape, x, target, current) <==> y in shape
  {
    OldPlaces(shape, x, target, current);
    MovedStands(shape, x, target, current);
    hide InsertRemove, OldPlace, NewPlace;
    var moved := InsertRemove(shape, x, target, current);
    if i :| 0 <= i < |moved| && moved[i] == y {
      assert shape[OldPlace(target, current, i)] == y;
    }
    if i :| 0 <= i < |shape| && shape[i] == y {
      if i != current {
        SlotMovesTo(shape, x, target, current, i);
        assert moved[NewPlace(target, current, i)] == y;
      }
    }
  }

  lemma MovedStands(shape: seq<Slot>, x: Layer, target: nat, current: nat)
    requires target <= |shape| && current < |shape|
    ensures OfLayer(x) in InsertRemove(shape, x, target, current)
  {
    var at := if target <= current then target else target - 1;
    assert InsertRemove(shape, x, target, current)[at] == OfLayer(x);
  }

  /** A round leaves a blocked layer behind its group. */
  lemma RoundKeepsBlocked(shape: seq<Slot>, target: nat, x: Layer, g: Node, l: Layer)
    requires target <= |shape| && DistinctIds(shape) && OfLayer(x) in shape && BlockedBy(shape, g, l)
    ensures BlockedBy(Round(shape, target, x), g, l)
  {
    var i, j :| 0 <= i < j < |shape| && shape[i] == OtherNode(g) && shape[j] == OfLayer(l);
    if Moves(shape, target, x) {
      var current := FindSlot(shape, x.id).value;
      assert Holds(shape[i], l.id);
      assert x.id == l.id ==> current <= i && false;
      SlotMovesTo(shape, x, target, current, i);
      SlotMovesTo(shape, x, target, current, j);
      NewPlaceOrder(target, current, i, j);
      var i', j' := NewPlace(target, current, i), NewPlace(target, current, j);
      assert i' < j' && Round(shape, target, x)[i'] == OtherNode(g) && Round(shape, target, x)[j'] == OfLayer(l);
    }
  }

  lemma RoundKeepsSlots(shape: seq<Slot>, target: nat, x: Layer)
    requires target <= |shape| && DistinctIds(shape) && OfLayer(x) in shape
    ensures DistinctIds(Round(shape, target, x))
    ensures forall y :: y in Round(shape, target, x) <==> y in shape
  {
    if Moves(shape, target, x) {
      var current := FindSlot(shape, x.id).value;
      var at :| 0 <= at < |shape| && shape[at] == OfLayer(x);
      assert at == current;
      InsertRemoveDistinct(shape, x, target, current);
      forall y
        ensures y in Round(shape, target, x) <==> y in shape
      {
        InsertRemoveHolds(shape, x, target, current, y);
      }
    }
  }

  lemma {:induction false} RoundsKeepBlocked(shape: seq<Slot>, desired: seq<Layer>, k: nat, g: Node, l: Layer)
    requires k <= |desired| <= |shape| && DistinctIds(shape) && BlockedBy(shape, g, l)
    requires forall x :: x in desired ==> OfLayer(x) in shape
    ensures DistinctIds(Rounds(shape, desired, k)) && BlockedBy(Rounds(shape, desired, k), g, l)
    ensures forall y :: y in Rounds(shape, desired, k) <==> y in shape
  {
    hide BlockedBy, DistinctIds, Round;
    if k > 0 {
      RoundsKeepBlocked(shape, desired, k - 1, g, l);
      var now := Rounds(shape, desired, k - 1);
      assert desired[k - 1] in desired;
      RoundKeepsBlocked(now, k - 1, desired[k - 1], g, l);
      RoundKeepsSlots(now, k - 1, desired[k - 1]);
    }
  }

  lemma BlockedIsNotNormal(table: Table, shape: seq<Slot>, g: Node, l: Layer)
    requires DistinctIds(shape) && BlockedBy(shape, g, l)
    ensures BlockedBy(Reordered(table, shape), g, l)
    ensures Reordered(table, shape) != Normal(table, shape)
  {
    hide Normal, Rounds;
    var desired := Sort(table, Layers(shape));
    DesiredFits(table, shape);
    SortKeeps(table, shape);
    RoundsKeepBlocked(shape, desired, |desired|, g, l);
    NormalBlocksNone(table, shape, g, l);
  }

  lemma NormalBlocksNone(table: Table, shape: seq<Slot>, g: Node, l: Layer)
    ensures !BlockedBy(Normal(table, shape), g, l)
  {
    OthersAreOther(shape);
  }

  /** With distinct layer ids in the root the loop leaves the stably sorted
      layers followed by all other nodes exactly when no group stood before a
      root layer that it holds as well; a blocked layer stays behind its group. */
  lemma ReorderedIsNormalIff(table: Table, shape: seq<Slot>)
    requires DistinctIds(shape)
    ensures Reordered(table, shape) == Normal(table, shape) <==> Unblocked(shape)
  {
    hide Reordered, Normal;
    if Unblocked(shape) {
      UnblockedIsNormal(table, shape);
    } else {
      var i, j :| 0 <= i < j < |shape| && shape[i].OtherNode? && shape[j].OfLayer?
        && shape[j].layer.id in shape[i].node.nested;
      assert BlockedBy(shape, shape[i].node, shape[j].layer);
      BlockedIsNotNormal(table, shape, shape[i].node, shape[j].layer);
    }
  }

  lemma NormalIsUnblocked(table: Table, shape: seq<Slot>)
    requires shape == Normal(table, shape)
    ensures Unblocked(shape)
  {
    OthersAreOther(shape);
  }

  /** The root has the order asked for exactly when every layer stands at its
      target or is passed over and none is blocked: unless one is, the loop
      reports a change exactly when the order differed. */
  lemma SettledIsNormalIff(table: Table, shape: seq<Slot>)
    requires DistinctIds(shape)
    ensures shape == Normal(table, shape) <==> Settled(table, shape) && Unblocked(shape)
  {
    hide Normal, Moves, Unblocked;
    var desired := Sort(table, Layers(shape));
    DesiredFits(table, shape);
    if Settled(table, shape) && Unblocked(shape) {
      UnblockedIsNormal(table, shape);
      QuietRounds(shape, desired, |desired|);
    }
    if shape == Normal(table, shape) {
      NormalIsUnblocked(table, shape);
      forall k | 0 <= k < |desired|
        ensures !Moves(shape, k, desired[k])
      {
        NormalStays(table, shape, k);
      }
    }
  }

  /** So unless a layer is blocked a second run reports and changes nothing. */
  lemma SecondRunIsSettled(table: Table, shape: seq<Slot>)
    requires DistinctIds(shape) && Unblocked(shape)
    ensures Settled(table, Reordered(table, shape))
    ensures Reordered(table, Reordered(table, shape)) == Reordered(table, shape)
  {
    hide Normal, Settled, Unblocked;
    UnblockedIsNormal(table, shape);
    NormalIsIdempotent(table, shape);
    SettledIsNormalIff(table, Reordered(table, shape));
    UnblockedIsNormal(table, Reordered(table, shape));
  }

  lemma NormalStays(table: Table, shape: seq<Slot>, k: nat)
    requires DistinctIds(shape) && shape == Normal(table, shape) && k < |Sort(table, Layers(shape))|
    ensures !Moves(shape, k, Sort(table, Layers(shape))[k])
  {
    hide Sort;
    assert shape[k] == OfLayer(Sort(table, Layers(shape))[k]);
    FindSlotIs(shape, k);
  }

  /** A blocked layer can make every run report a change that it does not make:
      a layer that should come second stands first, is put in again at the
      second place, and is first again once its old node is out. */
  lemma BlockedLayerKeepsChanging(table: Table)
    ensures DistinctIds(BLOCKED) && !Unblocked(BLOCKED)
    ensures Reordered(table, BLOCKED) == BLOCKED != Normal(table, BLOCKED)
    ensures !Settled(table, BLOCKED)
  {
    BlockedSort(table);
    BlockedRounds();
    BlockedShape();
    hide Sort, Normal, Rounds, Moves;
    ReorderedIsNormalIff(table, BLOCKED);
    assert [TASKS, PHOTOS][1] == PHOTOS;
    assert SomeMoves(BLOCKED, [TASKS, PHOTOS], 2);
  }

  const PHOTOS := Layer("b", "photos")
  const TASKS := Layer("a", "tasks")
  const BLOCKED := [OfLayer(PHOTOS), OtherNode(Node(0, None, {"a"})), OfLayer(TASKS)]

  lemma BlockedShape()
    ensures DistinctIds(BLOCKED) && !Unblocked(BLOCKED) && Layers(BLOCKED) == [PHOTOS, TASKS]
  {
    assert "a"[0] != "b"[0];
    assert BLOCKED[1].OtherNode? && BLOCKED[2].layer.id in BLOCKED[1].node.nested;
    assert BLOCKED[1..][1..] == [OfLayer(TASKS)];
    assert Layers([OfLayer(TASKS)]) == [TASKS];
  }

  lemma BlockedRounds()
    ensures Rounds(BLOCKED, [TASKS, PHOTOS], 2) == BLOCKED
    ensures Moves(BLOCKED, 1, PHOTOS)
  {
    assert "a"[0] != "b"[0];
    var a, b := FindSlot(BLOCKED, "a"), FindSlot(BLOCKED, "b");
    assert Holds(BLOCKED[1], "a") && !Holds(BLOCKED[0], "a");
    assert Holds(BLOCKED[0], "b");
    assert a == Some(1) && b == Some(0);
    assert InsertRemove(BLOCKED, PHOTOS, 1, 0) == BLOCKED;
    assert Rounds(BLOCKED, [TASKS, PHOTOS], 1) == BLOCKED;
  }

  lemma BlockedSort(table: Table)
    ensures Sort(table, [PHOTOS, TASKS]) == [TASKS, PHOTOS]
  {
    BlockedPriorities(table);
    hide Priority;
    assert [PHOTOS, TASKS][1..] == [TASKS] && [TASKS][1..] == [];
    assert Sort(table, [TASKS]) == Place(table, TASKS, []) == [TASKS];
    assert Place(table, PHOTOS, []) == [PHOTOS];
    assert Place(table, PHOTOS, [TASKS]) == [TASKS] + Place(table, PHOTOS, []);
  }

  lemma BlockedPriorities(table: Table)
    ensures Priority(table, TASKS) == 1 && Priority(table, PHOTOS) == 10
  {
    assert Trim("tasks") == "tasks" && Trim("photos") == "photos";
    assert Lower("tasks") == "tasks" && Lower("photos") == "photos";
    assert "photos"[0] == 'p';
  }

  lemma MovedDistinct(shape: seq<Slot>, target: nat, current: nat)
    requires target <= current < |shape| && DistinctIds(shape)
    ensures DistinctIds(Moved(shape, target, current))
  {
    var moved := Moved(shape, target, current);
    forall i | 0 <= i < |moved|
      ensures moved[i] == shape[Source(target, current, i)]
    {
    }
  }

  /** Where the slot now at i stood before the move. */
  function Source(target: nat, current: nat, i: nat): nat
    requires target <= current
  {
    if i == target then current else if target < i <= current then i - 1 else i
  }

  /** The slot at `current` taken forward to `target`. */
  function Moved(shape: seq<Slot>, target: nat, current: nat): seq<Slot>
    requires target <= current < |shape|
  {
    shape[..target] + [shape[current]] + shape[target..current] + shape[current + 1..]
  }

  /** After k rounds: the first k layers in place, the rest as before. */
  ghost predicate Placed(shape: seq<Slot>, desired: seq<Layer>, k: nat, now: seq<Slot>) {
    && k <= |desired| && DistinctIds(now)
    && now == Slots(desired[..k]) + Minus(shape, Ids(desired[..k]))
  }

  /** What the loop relies on about the sorted layers. */
  ghost predicate Desired(shape: seq<Slot>, desired: seq<Layer>) {
    Distinct(desired) && forall x :: x in desired <==> OfLayer(x) in shape
  }

  lemma SortKeeps(table: Table, shape: seq<Slot>)
    requires DistinctIds(shape)
    ensures var desired := Sort(table, Layers(shape));
            Desired(shape, desired) && Placed(shape, desired, 0, shape)
  {
    var layers := Layers(shape);
    var desired := Sort(table, layers);
    LayersDistinct(shape);
    SortIsDistinct(table, layers);
    forall x
      ensures x in desired <==> OfLayer(x) in shape
    {
      LayersHold(shape, x);
    }
    NothingPlaced(shape, desired);
  }

  lemma NothingPlaced(shape: seq<Slot>, desired: seq<Layer>)
    requires DistinctIds(shape)
    ensures Placed(shape, desired, 0, shape)
  {
    assert Ids(desired[..0]) == {};
    MinusNothing(shape, {});
    assert Slots(desired[..0]) + Minus(shape, {}) == shape;
  }

  /** The next layer to place is still there, not before its target. */
  lemma NextToPlace(shape: seq<Slot>, desired: seq<Layer>, k: nat, now: seq<Slot>) returns (c: nat)
    requires Placed(shape, desired, k, now) && Desired(shape, desired) && k < |desired|
    ensures k <= c < |now| && now[c] == OfLayer(desired[k])
  {
    var x := desired[k];
    var rest := Minus(shape, Ids(desired[..k]));
    assert x in desired;
    MinusHolds(shape, Ids(desired[..k]), OfLayer(x));
    var i :| 0 <= i < |rest| && rest[i] == OfLayer(x);
    c := k + i;
  }

  lemma IdsSnoc(desired: seq<Layer>, k: nat)
    requires k < |desired|
    ensures Ids(desired[..k + 1]) == Ids(desired[..k]) + {desired[k].id}
  {
    assert desired[..k + 1] == desired[..k] + [desired[k]];
    forall id
      ensures id in Ids(desired[..k + 1]) <==> id in Ids(desired[..k]) + {desired[k].id}
    {
      assert desired[k] in desired[..k + 1];
    }
  }

  lemma StepPlaces(shape: seq<Slot>, desired: seq<Layer>, k: nat, now: seq<Slot>, c: nat)
    requires Placed(shape, desired, k, now) && k < |desired|
    requires k <= c < |now| && now[c] == OfLayer(desired[k])
    ensures Placed(shape, desired, k + 1, Moved(now, k, c))
  {
    hide Minus, Ids, Slots;
    var id := desired[k].id;
    var head, rest := Slots(desired[..k]), Minus(shape, Ids(desired[..k]));
    RestIsDistinct(head, rest);
    assert rest[c - k] == OfLayer(desired[k]);
    MinusOne(rest, c - k);
    MinusMinus(shape, Ids(desired[..k]), {id});
    IdsSnoc(desired, k);
    MovedDistinct(now, k, c);
    hide DistinctIds, Moved;
    MovedParts(head, rest, c - k);
    SlotsSnoc(desired, k);
  }

  lemma RestIsDistinct(head: seq<Slot>, rest: seq<Slot>)
    requires DistinctIds(head + rest)
    ensures DistinctIds(rest)
  {
    assert forall i :: 0 <= i < |rest| ==> rest[i] == (head + rest)[|head| + i];
  }

  lemma SlotsSnoc(desired: seq<Layer>, k: nat)
    requires k < |desired|
    ensures Slots(desired[..k + 1]) == Slots(desired[..k]) + [OfLayer(desired[k])]
  {
  }

  lemma MovedNowhere(shape: seq<Slot>, k: nat)
    requires k < |shape|
    ensures Moved(shape, k, k) == shape
  {
  }

  lemma MovedParts(head: seq<Slot>, rest: seq<Slot>, c: nat)
    requires c < |rest|
    ensures Moved(head + rest, |head|, |head| + c) == (head + [rest[c]]) + (rest[..c] + rest[c + 1..])
  {
  }

  /** With all layers placed, what remains are the other nodes. */
  lemma AllPlaced(table: Table, shape: seq<Slot>, now: seq<Slot>)
    requires var desired := Sort(table, Layers(shape));
             Placed(shape, desired, |desired|, now) && Desired(shape, desired)
    ensures now == Normal(table, shape)
  {
    var desired := Sort(table, Layers(shape));
    assert desired[..|desired|] == desired;
    forall x | x in Layers(shape)
      ensures x.id in Ids(desired)
    {
      LayersHold(shape, x);
      var i :| 0 <= i < |desired| && desired[i] == x;
    }
    MinusAll(shape, Ids(desired));
  }

  // ---- what the order means for a basemap ----

  /** After the reordering every layer stands above every group, and above
      every layer of larger priority number: an attached basemap is above the
      bundled Background group and above OpenStreetMap. */
  lemma BasemapStandsAboveGroups(table: Table, shape: seq<Slot>, i: nat, j: nat)
    requires i < |Normal(table, shape)| && j < |Normal(table, shape)|
    requires Normal(table, shape)[i].OfLayer?
    ensures Normal(table, shape)[j].OtherNode? ==> i < j
    ensures Normal(table, shape)[j].OfLayer?
            && Priority(table, Normal(table, shape)[i].layer) < Priority(table, Normal(table, shape)[j].layer)
            ==> i < j
  {
    hide Priority, Sort, Layers, Others;
    OthersAreOther(shape);
    SortIsStable(table, Layers(shape));
    var sorted := Sort(table, Layers(shape));
    assert forall k :: 0 <= k < |sorted| ==> Normal(table, shape)[k] == OfLayer(sorted[k]);
  }

  lemma {:induction false} LayersSnoc(shape: seq<Slot>, x: Layer)
    ensures Layers(shape + [OfLayer(x)]) == Layers(shape) + [x]
    ensures Others(shape + [OfLayer(x)]) == Others(shape)
    decreases |shape|
  {
    if shape == [] {
      assert [] + [OfLayer(x)] == [OfLayer(x)] && [OfLayer(x)][1..] == [];
    } else {
      LayersSnoc(shape[1..], x);
      assert (shape + [OfLayer(x)])[1..] == shape[1..] + [OfLayer(x)];
    }
  }

  /** Attaching a basemap appends its layer to the root and reorders: it then
      stands behind exactly the layers of its own group or one further up, so
      below every layer that is not a basemap, OpenStreetMap or, in a drone
      project, a dem, and above OpenStreetMap and every group. */
  lemma AttachedBasemapPlace(table: Table, shape: seq<Slot>, basemap: Layer) returns (i: nat)
    ensures var now := Normal(table, shape + [OfLayer(basemap)]);
            && i < |now| && now[i] == OfLayer(basemap)
            && (forall j :: 0 <= j < |now| && j != i ==>
                 (j < i <==> now[j].OfLayer? && Group(table, now[j].layer) <= Group(table, basemap)))
            && (NamedAs(basemap.name, "basemap") ==>
                 forall j :: 0 <= j < |now| && j != i ==> (i < j <==> BelowBasemap(table, now[j])))
  {
    hide Priority, NamedAs, Group;
    LayersSnoc(shape, basemap);
    OthersAreOther(shape);
    i := AppendedLayerPlace(table, Layers(shape), basemap);
    var now := Normal(table, shape + [OfLayer(basemap)]);
    forall j | 0 <= j < |now| && now[j].OfLayer?
      ensures Priority(table, now[j].layer) <= Priority(table, basemap)
              <==> Group(table, now[j].layer) <= Group(table, basemap)
    {
      GroupsOrder(table, now[j].layer, basemap);
    }
    if NamedAs(basemap.name, "basemap") {
      forall j | 0 <= j < |now| && now[j].OfLayer?
        ensures Group(table, now[j].layer) <= Group(table, basemap) <==> !BelowBasemap(table, now[j])
      {
        BelowIsGroup(table, now[j].layer, basemap);
      }
    }
  }

  /** What an attached basemap stands above: every group, OpenStreetMap, and in
      a drone project a dem. */
  ghost predicate BelowBasemap(table: Table, slot: Slot) {
    slot.OfLayer? ==>
      NamedAs(slot.layer.name, "openstreetmap") || (table == DroneTable && NamedAs(slot.layer.name, "dem"))
  }

  lemma BelowIsGroup(table: Table, layer: Layer, basemap: Layer)
    requires NamedAs(basemap.name, "basemap")
    ensures Group(table, layer) <= Group(table, basemap) <==> !BelowBasemap(table, OfLayer(layer))
  {
    hide NamedAs, Lower, Trim;
    NamesAre(layer.name);
    NamesAre(basemap.name);
  }
}
