/** The metadata fixes applied to a project document one after another, and
    what they do when applied to their own output. */
module QgsFixes {
  import opened Text
  import opened QgsTokens
  import opened SurveyTabs
  import opened SurveyTabsProofs

  // ---- dangling colour profiles ----

  predicate Dangling(t: Token, bundled: set<string>) {
    t.IccRef? && t.attachment !in bundled
  }

  function DropDangling(s: seq<Token>, bundled: set<string>): (r: seq<Token>)
    ensures forall t :: t in r <==> t in s && !(t.IccRef? && t.attachment !in bundled)
    decreases |s|
  {
    if s == [] then []
    else if Dangling(s[0], bundled) then DropDangling(s[1..], bundled)
    else [s[0]] + DropDangling(s[1..], bundled)
  }

  function FixDanglingIccRefs(s: seq<Token>, bundled: set<string>): (seq<Token>, bool) {
    (DropDangling(s, bundled), exists i :: 0 <= i < |s| && Dangling(s[i], bundled))
  }

  lemma {:induction false} NothingDangling(s: seq<Token>, bundled: set<string>)
    requires forall t :: t in s ==> !Dangling(t, bundled)
    ensures DropDangling(s, bundled) == s
    decreases |s|
  {
    if s != [] {
      NothingDangling(s[1..], bundled);
      assert s == [s[0]] + s[1..];
    }
  }

  lemma {:induction false} DroppingRefsIsInvisible(s: seq<Token>, bundled: set<string>, stack: seq<Token>, depth: nat)
    ensures Placed(DropDangling(s, bundled), stack) == Placed(s, stack)
    ensures Depth(DropDangling(s, bundled), depth) == Depth(s, depth)
    decreases |s|
  {
    if s != [] {
      var next := if IsOpen(s[0]) then stack + [s[0]]
                  else if IsClose(s[0]) then (if stack == [] then [] else stack[..|stack| - 1])
                  else stack;
      var deeper := if IsOpen(s[0]) then depth + 1 else if IsClose(s[0]) && depth > 0 then depth - 1 else depth;
      DroppingRefsIsInvisible(s[1..], bundled, next, deeper);
    }
  }

  // ---- the tasks layer in the layer tree ----

  /** The tags the tree fix looks at. */
  predicate IsLayerTag(t: Token) {
    || t.MapLayerOpen? || t.MapLayerClose? || t.LayerName? || t.LayerId? || t.DataSource?
    || t.GroupOpen? || t.TreeLayerOpen? || t.TreeLayerClose?
  }

  predicate HasLayerEnd(s: seq<Token>) {
    exists i :: 0 <= i < |s| && s[i].MapLayerClose?
  }

  /** Within a layer block, its name is "tasks" and it is closed. */
  predicate HoldsTasks(s: seq<Token>)
    decreases |s|
  {
    s != [] && !s[0].MapLayerClose? &&
    if s[0] == LayerName("tasks") then HasLayerEnd(s[1..]) else HoldsTasks(s[1..])
  }

  function FirstId(s: seq<Token>): Option<string>
    decreases |s|
  {
    if s == [] || s[0].MapLayerClose? then None
    else if s[0].LayerId? then Some(s[0].id)
    else FirstId(s[1..])
  }

  function FirstSource(s: seq<Token>): string
    decreases |s|
  {
    if s == [] || s[0].MapLayerClose? then "./tasks.gpkg"
    else if s[0].DataSource? then s[0].source
    else FirstSource(s[1..])
  }

  datatype TasksLayer = TasksLayer(id: Option<string>, source: string)

  /** The first layer block named "tasks". */
  function FindTasks(s: seq<Token>): Option<TasksLayer>
    decreases |s|
  {
    if s == [] then None
    else if s[0].MapLayerOpen? && HoldsTasks(s[1..]) then Some(TasksLayer(FirstId(s[1..]), FirstSource(s[1..])))
    else FindTasks(s[1..])
  }

  predicate InTree(s: seq<Token>, id: string) {
    exists i :: 0 <= i < |s| && s[i].TreeLayerOpen? && s[i].id == id
  }

  /** The guard of the tree fix: a tasks layer with an id, not yet in the
      tree, and a group to put it in. */
  predicate NeedsTreeNode(s: seq<Token>) {
    var tasks := FindTasks(s);
    && tasks.Some? && tasks.value.id.Some?
    && !InTree(s, tasks.value.id.value)
    && Seek(s, 0, GroupTag).Some?
  }

  function TreeNode(id: string, source: string): seq<Token> {
    [Newline, BlankText, TreeLayerOpen(id, source), Other("customproperties"), TreeLayerClose]
  }

  /** After the first tree layer that follows the first group, or right after
      the group tag. */
  function TreePlace(s: seq<Token>): (at: nat)
    requires Seek(s, 0, GroupTag).Some?
    ensures at <= |s|
  {
    var group := Seek(s, 0, GroupTag).value;
    var firstEnd := Seek(s, group + 1, TreeLayerCloseTag);
    if firstEnd.Some? then firstEnd.value + 1 else group + 1
  }

  function FixTaskLayerTree(s: seq<Token>): (seq<Token>, bool) {
    if !NeedsTreeNode(s) then (s, false)
    else
      var tasks := FindTasks(s).value;
      (Insert(s, TreePlace(s), TreeNode(tasks.id.value, tasks.source)), true)
  }

  // ---- the map canvas ----

  predicate HasCanvas(s: seq<Token>) {
    exists i :: 0 <= i < |s| && s[i].MapCanvas?
  }

  function FirstSrs(s: seq<Token>): Option<Srs>
    decreases |s|
  {
    if s == [] then None
    else if s[0].ProjectCrs? && s[0].srs.Some? then s[0].srs
    else FirstSrs(s[1..])
  }

  function FirstVertical(s: seq<Token>): (r: Option<nat>)
    ensures r.Some? ==> r.value < |s|
    decreases |s|
  {
    if s == [] then None else if s[0].VerticalCrs? then Some(0) else Shift(FirstVertical(s[1..]), 1)
  }

  function FirstProjectCrs(s: seq<Token>): (r: nat)
    requires FirstSrs(s).Some?
    ensures r < |s|
    decreases |s|
  {
    if s[0].ProjectCrs? then 0 else 1 + FirstProjectCrs(s[1..])
  }

  function CanvasNode(srs: Srs, extent: Extent): seq<Token> {
    [Newline, BlankText, MapCanvas(if srs.acronym == "longlat" then "degrees" else "meters", extent, srs)]
  }

  function InjectMapCanvas(s: seq<Token>, extent: Extent): (seq<Token>, bool) {
    if HasCanvas(s) || FirstSrs(s).None? then (s, false)
    else
      var vertical := FirstVertical(s);
      var at := if vertical.Some? then vertical.value + 1 else FirstProjectCrs(s) + 1;
      (Insert(s, at, CanvasNode(FirstSrs(s).value, extent)), true)
  }

  // ---- all fixes ----

  function TreeFixed(s: seq<Token>, bundled: set<string>): seq<Token> {
    FixTaskLayerTree(DropDangling(s, bundled)).0
  }

  function TabsStripped(s: seq<Token>, bundled: set<string>): seq<Token> {
    StripEmptySurveyRootTabs(TreeFixed(s, bundled)).0
  }

  function ApplyFixes(s: seq<Token>, bundled: set<string>, extent: Option<Extent>): (seq<Token>, bool) {
    var (s1, iccChanged) := FixDanglingIccRefs(s, bundled);
    var (s2, treeFixed) := FixTaskLayerTree(s1);
    var (s3, tabStripped) := StripEmptySurveyRootTabs(s2);
    var (s4, canvasInjected) := if extent.Some? then InjectMapCanvas(s3, extent.value) else (s3, false);
    (s4, iccChanged || treeFixed || tabStripped || canvasInjected)
  }

  // ---- the tree guard sees only layer tags ----

  function LayerView(s: seq<Token>): seq<Token>
    decreases |s|
  {
    if s == [] then []
    else if IsLayerTag(s[0]) then [s[0]] + LayerView(s[1..])
    else LayerView(s[1..])
  }

  lemma {:induction false} ViewConcat(a: seq<Token>, b: seq<Token>)
    ensures LayerView(a + b) == LayerView(a) + LayerView(b)
    decreases |a|
  {
    if a == [] {
      assert a + b == b;
    } else {
      ViewConcat(a[1..], b);
      assert (a + b)[1..] == a[1..] + b;
    }
  }

  lemma {:induction false} ViewNothing(s: seq<Token>)
    requires forall t :: t in s ==> !IsLayerTag(t)
    ensures LayerView(s) == []
    decreases |s|
  {
    if s != [] { ViewNothing(s[1..]); }
  }

  lemma {:induction false} ViewHas(s: seq<Token>, t: Token)
    requires IsLayerTag(t)
    ensures t in LayerView(s) <==> t in s
    decreases |s|
  {
    if s != [] {
      ViewHas(s[1..], t);
      assert s == [s[0]] + s[1..];
    }
  }

  lemma {:induction false} BlockSeesView(s: seq<Token>)
    ensures HoldsTasks(s) == HoldsTasks(LayerView(s))
    ensures FirstId(s) == FirstId(LayerView(s))
    ensures FirstSource(s) == FirstSource(LayerView(s))
    decreases |s|
  {
    if s != [] {
      BlockSeesView(s[1..]);
      EndSeesView(s[1..]);
      if IsLayerTag(s[0]) { assert LayerView(s)[1..] == LayerView(s[1..]); }
    }
  }

  lemma EndSeesView(s: seq<Token>)
    ensures HasLayerEnd(s) == HasLayerEnd(LayerView(s))
  {
    ViewHas(s, MapLayerClose);
    var v := LayerView(s);
    assert HasLayerEnd(s) ==> MapLayerClose in s;
    assert HasLayerEnd(v) ==> MapLayerClose in v;
  }

  lemma {:induction false} TasksSeeView(s: seq<Token>)
    ensures FindTasks(s) == FindTasks(LayerView(s))
    decreases |s|
  {
    if s != [] {
      TasksSeeView(s[1..]);
      BlockSeesView(s[1..]);
      if IsLayerTag(s[0]) { assert LayerView(s)[1..] == LayerView(s[1..]); }
    }
  }

  lemma TreeSeesView(s: seq<Token>, id: string)
    ensures InTree(s, id) == InTree(LayerView(s), id)
  {
    var v := LayerView(s);
    if i :| 0 <= i < |s| && s[i].TreeLayerOpen? && s[i].id == id {
      ViewHas(s, s[i]);
      var j :| 0 <= j < |v| && v[j] == s[i];
    }
    if i :| 0 <= i < |v| && v[i].TreeLayerOpen? && v[i].id == id {
      ViewHas(s, v[i]);
      var j :| 0 <= j < |s| && s[j] == v[i];
    }
  }

  lemma GroupSeesView(s: seq<Token>)
    ensures Seek(s, 0, GroupTag).Some? <==> GroupOpen in s
    ensures Seek(s, 0, GroupTag).Some? == Seek(LayerView(s), 0, GroupTag).Some?
  {
    ViewHas(s, GroupOpen);
    var v := LayerView(s);
    assert Seek(s, 0, GroupTag).Some? ==> s[Seek(s, 0, GroupTag).value] == GroupOpen;
    assert Seek(v, 0, GroupTag).Some? ==> v[Seek(v, 0, GroupTag).value] == GroupOpen;
  }

  /** Documents with the same layer tags need the same tree fix. */
  lemma NeedSeesView(s: seq<Token>)
    ensures NeedsTreeNode(s) == NeedsTreeNode(LayerView(s))
  {
    TasksSeeView(s);
    GroupSeesView(s);
    var tasks := FindTasks(s);
    if tasks.Some? && tasks.value.id.Some? { TreeSeesView(s, tasks.value.id.value); }
  }

  /** Dropped tabs that hold a tag of the layer tree or of a layer. */
  predicate DropsLayerTag(s: seq<Token>)
    decreases |s|
  {
    match FindTab(s, 0)
    case NoTab => false
    case Unclosed => false
    case Kept(end) => DropsLayerTag(s[end..])
    case Dropped(open, end, after) =>
      (exists j :: open <= j < end && IsLayerTag(s[j])) || DropsLayerTag(s[after..])
  }

  lemma NoLayerTagsBetween(s: seq<Token>, from: nat, to: nat)
    requires from <= to <= |s| && forall j :: from <= j < to ==> !IsLayerTag(s[j])
    ensures LayerView(s[from..to]) == []
  {
    var part := s[from..to];
    assert forall j :: 0 <= j < |part| ==> part[j] == s[from + j];
    ViewNothing(part);
  }

  lemma ViewOfDropped(s: seq<Token>, open: nat, end: nat, after: nat)
    requires open <= end && BlanksAt(s, end, after)
    requires forall j :: open <= j < end ==> !IsLayerTag(s[j])
    ensures LayerView(s) == LayerView(s[..open]) + LayerView(s[after..])
  {
    NoLayerTagsBetween(s, open, after);
    hide IsLayerTag, BlanksAt;
    ViewConcat(s[..open], s[open..after]);
    ViewConcat(s[..after], s[after..]);
    assert s == s[..after] + s[after..] && s[..after] == s[..open] + s[open..after];
  }

  lemma {:induction false} ViewShrinks(s: seq<Token>)
    requires Strip(s).Done?
    ensures |LayerView(Strip(s).tokens)| <= |LayerView(s)|
    ensures DropsLayerTag(s) ==> |LayerView(Strip(s).tokens)| < |LayerView(s)|
    decreases |s|
  {
    hide FindTab, IsLayerTag, LayerView;
    match FindTab(s, 0)
    case NoTab =>
    case Unclosed =>
    case Kept(end) =>
      ViewShrinks(s[end..]);
      ViewConcat(s[..end], s[end..]);
      ViewConcat(s[..end], Strip(s[end..]).tokens);
      assert s == s[..end] + s[end..];
    case Dropped(open, end, after) =>
      ViewShrinks(s[after..]);
      ViewCut(s, open, end, after);
      ViewConcat(s[..open], Strip(s[after..]).tokens);
  }

  lemma ViewCut(s: seq<Token>, open: nat, end: nat, after: nat)
    requires open <= end <= after <= |s|
    ensures |LayerView(s)| >= |LayerView(s[..open])| + |LayerView(s[after..])|
    ensures (exists j :: open <= j < end && IsLayerTag(s[j])) ==>
      |LayerView(s)| > |LayerView(s[..open])| + |LayerView(s[after..])|
  {
    hide IsLayerTag, LayerView;
    var part := s[open..after];
    ViewConcat(s[..open], part);
    ViewConcat(s[..after], s[after..]);
    assert s == s[..after] + s[after..] && s[..after] == s[..open] + part;
    if j :| open <= j < end && IsLayerTag(s[j]) {
      assert part[j - open] == s[j];
      ViewHas(part, s[j]);
    }
  }

  /** The layer tags are all still there exactly when no dropped tab holds
      one. */
  lemma StripKeepsView(s: seq<Token>)
    requires Strip(s).Done?
    ensures LayerView(Strip(s).tokens) == LayerView(s) <==> !DropsLayerTag(s)
  {
    hide Strip, DropsLayerTag, LayerView;
    ViewShrinks(s);
    if !DropsLayerTag(s) { ViewStays(s); }
  }

  lemma {:induction false} ViewStays(s: seq<Token>)
    requires Strip(s).Done? && !DropsLayerTag(s)
    ensures LayerView(Strip(s).tokens) == LayerView(s)
    decreases |s|
  {
    hide FindTab, BlanksAt, IsLayerTag, LayerView;
    match FindTab(s, 0)
    case NoTab =>
    case Unclosed =>
    case Kept(end) =>
      ViewStays(s[end..]);
      ViewConcat(s[..end], s[end..]);
      ViewConcat(s[..end], Strip(s[end..]).tokens);
      assert s == s[..end] + s[end..];
    case Dropped(open, end, after) =>
      ViewStays(s[after..]);
      DroppedShape(s, 0);
      ViewOfDropped(s, open, end, after);
      ViewConcat(s[..open], Strip(s[after..]).tokens);
  }

  lemma InsertKeepsView(s: seq<Token>, p: nat, n: seq<Token>)
    requires p <= |s| && LayerView(n) == []
    ensures LayerView(Insert(s, p, n)) == LayerView(s)
  {
    ViewConcat(s[..p] + n, s[p..]);
    ViewConcat(s[..p], n);
    ViewConcat(s[..p], s[p..]);
    assert s == s[..p] + s[p..];
  }

  // ---- one fix does not call for another ----

  /** A document the tree fix has just dealt with does not need it again. */
  lemma TreeFixSettles(s: seq<Token>)
    ensures !NeedsTreeNode(FixTaskLayerTree(s).0)
  {
    if NeedsTreeNode(s) {
      var tasks := FindTasks(s).value;
      var node := TreeNode(tasks.id.value, tasks.source);
      var at := TreePlace(s);
      var t := Insert(s, at, node);
      assert t[at + 2] == node[2];
      assert InTree(t, tasks.id.value);
      TasksPastNode(s, at, tasks.id.value, tasks.source);
    }
  }

  /** The inserted node is no layer block: the tasks layer stays the same. */
  lemma TasksPastNode(s: seq<Token>, at: nat, id: string, source: string)
    requires at <= |s|
    ensures FindTasks(Insert(s, at, TreeNode(id, source))) == FindTasks(s)
  {
    hide FindTasks, TreeNode, Insert, IsBlockTag;
    var node := TreeNode(id, source);
    NodeHasNoBlockTag(id, source);
    FindTasksPast(s[..at], node, s[at..]);
    InsertIsConcat(s, at, node);
  }

  lemma NodeHasNoBlockTag(id: string, source: string)
    ensures forall i :: 0 <= i < |TreeNode(id, source)| ==> !IsBlockTag(TreeNode(id, source)[i])
  {
  }

  lemma InsertIsConcat(s: seq<Token>, at: nat, n: seq<Token>)
    requires at <= |s|
    ensures Insert(s, at, n) == s[..at] + (n + s[at..]) && s == s[..at] + s[at..]
  {
  }

  predicate IsBlockTag(t: Token) {
    t.MapLayerOpen? || t.MapLayerClose? || t.LayerName? || t.LayerId? || t.DataSource?
  }

  lemma {:induction false} BlockPast(a: seq<Token>, n: seq<Token>, b: seq<Token>)
    requires forall i :: 0 <= i < |n| ==> !IsBlockTag(n[i])
    ensures HoldsTasks(a + (n + b)) == HoldsTasks(a + b)
    ensures FirstId(a + (n + b)) == FirstId(a + b)
    ensures FirstSource(a + (n + b)) == FirstSource(a + b)
    ensures HasLayerEnd(a + (n + b)) == HasLayerEnd(a + b)
    decreases |a| + |n|
  {
    EndPast(a, n, b);
    if a != [] {
      BlockPast(a[1..], n, b);
      assert (a + (n + b))[1..] == a[1..] + (n + b) && (a + b)[1..] == a[1..] + b;
      EndPast(a[1..], n, b);
    } else if n != [] {
      BlockPast([], n[1..], b);
      assert ([] + (n + b))[1..] == [] + (n[1..] + b);
      EndPast([], n[1..], b);
    } else {
      assert [] + ([] + b) == [] + b;
    }
  }

  lemma EndPast(a: seq<Token>, n: seq<Token>, b: seq<Token>)
    requires forall i :: 0 <= i < |n| ==> !IsBlockTag(n[i])
    ensures HasLayerEnd(a + (n + b)) == HasLayerEnd(a + b)
  {
    assert HasLayerEnd(a + (n + b)) <==> MapLayerClose in a + (n + b);
    assert HasLayerEnd(a + b) <==> MapLayerClose in a + b;
    assert MapLayerClose !in n;
  }

  lemma {:induction false} FindTasksPast(a: seq<Token>, n: seq<Token>, b: seq<Token>)
    requires forall i :: 0 <= i < |n| ==> !IsBlockTag(n[i])
    ensures FindTasks(a + (n + b)) == FindTasks(a + b)
    decreases |a| + |n|
  {
    if a != [] {
      FindTasksPast(a[1..], n, b);
      BlockPast(a[1..], n, b);
      assert (a + (n + b))[1..] == a[1..] + (n + b) && (a + b)[1..] == a[1..] + b;
    } else if n != [] {
      FindTasksPast([], n[1..], b);
      assert ([] + (n + b))[1..] == [] + (n[1..] + b);
    } else {
      assert [] + ([] + b) == [] + b;
    }
  }
}
