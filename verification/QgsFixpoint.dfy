/** The metadata fixes applied to their own output: when they are done after
    one application, that they always are after two, and what they keep. */
module QgsFixpoint {
  import opened Text
  import opened QgsTokens
  import opened SurveyTabs
  import opened SurveyTabsProofs
  import opened QgsFixes

  // ---- what survives each fix ----

  lemma InsertIsInvisible(s: seq<Token>, p: nat, n: seq<Token>, stack: seq<Token>, depth: nat)
    requires p <= |s| && Neutral(n)
    ensures Placed(Insert(s, p, n), stack) == Placed(s, stack)
    ensures Depth(Insert(s, p, n), depth) == Depth(s, depth)
  {
    var a, b := s[..p], s[p..];
    assert s == a + b && Insert(s, p, n) == a + (n + b);
    var st, d := StackAfter(a, stack), Depth(a, depth);
    PlacedConcat(a, b, stack);
    PlacedConcat(a, n + b, stack);
    PlacedConcat(n, b, st);
    DepthConcat(a, b, depth);
    DepthConcat(a, n + b, depth);
    if d.Some? {
      DepthConcat(n, b, d.value);
      NeutralIsInvisible(n, st, d.value);
    } else {
      NeutralIsInvisible(n, st, 0);
    }
  }

  lemma TreeFixIsInvisible(s: seq<Token>)
    ensures Placed(FixTaskLayerTree(s).0, []) == Placed(s, [])
    ensures Depth(FixTaskLayerTree(s).0, 0) == Depth(s, 0)
  {
    if NeedsTreeNode(s) {
      var tasks := FindTasks(s).value;
      InsertIsInvisible(s, TreePlace(s), TreeNode(tasks.id.value, tasks.source), [], 0);
    }
  }

  lemma CanvasIsInvisible(s: seq<Token>, extent: Extent)
    ensures Placed(InjectMapCanvas(s, extent).0, []) == Placed(s, [])
    ensures Depth(InjectMapCanvas(s, extent).0, 0) == Depth(s, 0)
  {
    if !HasCanvas(s) && FirstSrs(s).Some? {
      var vertical := FirstVertical(s);
      var at := if vertical.Some? then vertical.value + 1 else FirstProjectCrs(s) + 1;
      InsertIsInvisible(s, at, CanvasNode(FirstSrs(s).value, extent), [], 0);
    }
  }

  /** All fixes together keep every form field and relation inside the same
      tabs and in order, and keep the container tags balanced if they were. */
  lemma FixesKeepForms(s: seq<Token>, bundled: set<string>, extent: Option<Extent>)
    ensures Placed(ApplyFixes(s, bundled, extent).0, []) == Placed(s, [])
    ensures Balanced(ApplyFixes(s, bundled, extent).0) <==> Balanced(s)
  {
    hide Placed, Depth, FindTab, FixTaskLayerTree, InjectMapCanvas, Strip;
    DroppingRefsIsInvisible(s, bundled, [], 0);
    TreeFixIsInvisible(DropDangling(s, bundled));
    StripKeepsBalance(TreeFixed(s, bundled));
    if extent.Some? { CanvasIsInvisible(TabsStripped(s, bundled), extent.value); }
  }

  // ---- the fixes on a finished document ----

  lemma {:induction false} StripOnlyKeeps(s: seq<Token>, t: Token)
    requires Strip(s).Done? && t in Strip(s).tokens
    ensures t in s
    decreases |s|
  {
    hide FindTab;
    match FindTab(s, 0)
    case NoTab =>
    case Unclosed =>
    case Kept(end) => if t !in s[..end] { StripOnlyKeeps(s[end..], t); }
    case Dropped(open, end, after) => if t !in s[..open] { StripOnlyKeeps(s[after..], t); }
  }

  lemma StripIntroducesNothing(s: seq<Token>, t: Token)
    requires t in StripEmptySurveyRootTabs(s).0
    ensures t in s
  {
    if Strip(s).Done? && Strip(s).removed > 0 { StripOnlyKeeps(s, t); }
  }

  lemma InsertHolds(s: seq<Token>, p: nat, n: seq<Token>, t: Token)
    requires p <= |s|
    ensures t in Insert(s, p, n) <==> t in s || t in n
  {
    assert s == s[..p] + s[p..];
  }

  /** No fix brings a dangling reference in. */
  lemma NoDanglingLeft(s: seq<Token>, bundled: set<string>, extent: Option<Extent>)
    ensures forall t :: t in ApplyFixes(s, bundled, extent).0 ==> !Dangling(t, bundled)
  {
    hide FindTab, Strip, NeedsTreeNode, TreePlace, FindTasks, FirstSrs, FirstVertical, FirstProjectCrs, HasCanvas;
    forall t | t in ApplyFixes(s, bundled, extent).0 && t.IccRef?
      ensures t.attachment in bundled
    {
      var s1, s2, s3 := DropDangling(s, bundled), TreeFixed(s, bundled), TabsStripped(s, bundled);
      if extent.Some? { CanvasAddsNoRef(s3, extent.value, t); }
      StripIntroducesNothing(s2, t);
      TreeAddsNoRef(s1, t);
    }
  }

  lemma TreeAddsNoRef(s: seq<Token>, t: Token)
    requires t.IccRef? && t in FixTaskLayerTree(s).0
    ensures t in s
  {
    if NeedsTreeNode(s) {
      var tasks := FindTasks(s).value;
      InsertHolds(s, TreePlace(s), TreeNode(tasks.id.value, tasks.source), t);
    }
  }

  lemma CanvasAddsNoRef(s: seq<Token>, extent: Extent, t: Token)
    requires t.IccRef? && t in InjectMapCanvas(s, extent).0
    ensures t in s
  {
    if !HasCanvas(s) && FirstSrs(s).Some? {
      var vertical := FirstVertical(s);
      var at := if vertical.Some? then vertical.value + 1 else FirstProjectCrs(s) + 1;
      InsertHolds(s, at, CanvasNode(FirstSrs(s).value, extent), t);
    }
  }

  /** The canvas fix on its own output finds nothing to do. */
  lemma CanvasSettles(s: seq<Token>, extent: Extent)
    ensures var t := InjectMapCanvas(s, extent).0; HasCanvas(t) || FirstSrs(t).None?
  {
    if !HasCanvas(s) && FirstSrs(s).Some? {
      var vertical := FirstVertical(s);
      var at := if vertical.Some? then vertical.value + 1 else FirstProjectCrs(s) + 1;
      var node := CanvasNode(FirstSrs(s).value, extent);
      assert Insert(s, at, node)[at + 2] == node[2];
    }
  }

  /** The canvas changes neither the tabs nor the layer tags. */
  lemma CanvasKeeps(s: seq<Token>, extent: Extent)
    ensures Tally(InjectMapCanvas(s, extent).0) == Tally(s)
    ensures LayerView(InjectMapCanvas(s, extent).0) == LayerView(s)
  {
    if !HasCanvas(s) && FirstSrs(s).Some? {
      var vertical := FirstVertical(s);
      var at := if vertical.Some? then vertical.value + 1 else FirstProjectCrs(s) + 1;
      var node := CanvasNode(FirstSrs(s).value, extent);
      ViewNothing(node);
      InsertKeepsTally(s, at, node);
      InsertKeepsView(s, at, node);
    }
  }

  /** A document to which three of the four fixes have nothing to add. */
  ghost predicate Finished(s: seq<Token>, bundled: set<string>, extent: Option<Extent>) {
    && (forall t :: t in s ==> !Dangling(t, bundled))
    && !StripEmptySurveyRootTabs(s).1
    && (extent.Some? ==> HasCanvas(s) || FirstSrs(s).None?)
  }

  lemma OutputIsFinished(s: seq<Token>, bundled: set<string>, extent: Option<Extent>)
    ensures Finished(ApplyFixes(s, bundled, extent).0, bundled, extent)
    ensures NeedsTreeNode(ApplyFixes(s, bundled, extent).0) == NeedsTreeNode(TabsStripped(s, bundled))
  {
    hide FindTab, Strip, NeedsTreeNode, InjectMapCanvas, FixTaskLayerTree, Tally;
    var s2, s3 := TreeFixed(s, bundled), TabsStripped(s, bundled);
    var out := ApplyFixes(s, bundled, extent).0;
    NoDanglingLeft(s, bundled, extent);
    StripIsIdempotent(s2);
    ReportsIffTally(s3);
    ReportsIffTally(out);
    NeedSeesView(s3);
    NeedSeesView(out);
    if extent.Some? {
      CanvasSettles(s3, extent.value);
      CanvasKeeps(s3, extent.value);
    }
  }

  lemma FinishedStays(s: seq<Token>, bundled: set<string>, extent: Option<Extent>)
    requires Finished(s, bundled, extent)
    ensures ApplyFixes(s, bundled, extent).1 <==> NeedsTreeNode(s)
    ensures !NeedsTreeNode(s) ==> ApplyFixes(s, bundled, extent).0 == s
  {
    hide FindTab, Strip, NeedsTreeNode, FindTasks, TreePlace, Insert, FirstVertical, FirstProjectCrs;
    NothingDangling(s, bundled);
    ReportsIffTally(s);
    assert !FixDanglingIccRefs(s, bundled).1 by {
      assert forall i :: 0 <= i < |s| ==> s[i] in s;
    }
  }

  /** A second application reports a change exactly when the tree fix's guard
      holds of the document as the tab pass left it; otherwise it changes
      nothing at all. */
  lemma SecondApplicationIff(s: seq<Token>, bundled: set<string>, extent: Option<Extent>)
    ensures var out := ApplyFixes(s, bundled, extent).0;
            && (ApplyFixes(out, bundled, extent).1 <==> NeedsTreeNode(TabsStripped(s, bundled)))
            && (!NeedsTreeNode(TabsStripped(s, bundled)) ==> ApplyFixes(out, bundled, extent) == (out, false))
  {
    hide ApplyFixes, NeedsTreeNode, Finished;
    OutputIsFinished(s, bundled, extent);
    FinishedStays(ApplyFixes(s, bundled, extent).0, bundled, extent);
  }

  /** So the fixes are a fixpoint whenever no empty Survey tab that is
      dropped holds a tag of a layer or of the layer tree. */
  lemma FixpointUnlessTabHoldsLayerTag(s: seq<Token>, bundled: set<string>, extent: Option<Extent>)
    requires !DropsLayerTag(TreeFixed(s, bundled))
    ensures var out := ApplyFixes(s, bundled, extent).0;
            ApplyFixes(out, bundled, extent) == (out, false)
  {
    hide ApplyFixes, NeedsTreeNode, DropsLayerTag, FindTab, Strip, LayerView, FixTaskLayerTree;
    SecondApplicationIff(s, bundled, extent);
    var s2 := TreeFixed(s, bundled);
    TreeFixSettles(DropDangling(s, bundled));
    if Strip(s2).Done? { StripKeepsView(s2); }
    NeedSeesView(s2);
    NeedSeesView(TabsStripped(s, bundled));
  }

  // ---- two applications are always enough ----

  lemma {:induction false} FirstSrsPast(a: seq<Token>, n: seq<Token>, b: seq<Token>)
    requires forall i :: 0 <= i < |n| ==> !n[i].ProjectCrs?
    ensures FirstSrs(a + (n + b)) == FirstSrs(a + b)
    decreases |a| + |n|
  {
    if a != [] {
      FirstSrsPast(a[1..], n, b);
      assert (a + (n + b))[1..] == a[1..] + (n + b) && (a + b)[1..] == a[1..] + b;
    } else if n != [] {
      FirstSrsPast([], n[1..], b);
      assert ([] + (n + b))[1..] == [] + (n[1..] + b);
    } else {
      assert [] + ([] + b) == [] + b;
    }
  }

  /** Adding the tree node calls for none of the other fixes. */
  lemma NodeKeepsFinished(
      s: seq<Token>, bundled: set<string>, extent: Option<Extent>, at: nat, id: string, source: string)
    requires Finished(s, bundled, extent) && at <= |s|
    ensures Finished(Insert(s, at, TreeNode(id, source)), bundled, extent)
  {
    var node := TreeNode(id, source);
    var t := Insert(s, at, node);
    forall x | x in t
      ensures !Dangling(x, bundled)
    {
      InsertHolds(s, at, node, x);
    }
    InsertKeepsTally(s, at, node);
    ReportsIffTally(s);
    ReportsIffTally(t);
    FirstSrsPast(s[..at], node, s[at..]);
    assert s == s[..at] + s[at..] && t == s[..at] + (node + s[at..]);
    if i :| 0 <= i < |s| && s[i].MapCanvas? {
      assert t[if i < at then i else i + |node|] == s[i];
    }
  }

  /** On a finished document that needs the node, the fixes add just it. */
  lemma FinishedGetsNode(s: seq<Token>, bundled: set<string>, extent: Option<Extent>)
    requires Finished(s, bundled, extent) && NeedsTreeNode(s)
    ensures var tasks := FindTasks(s).value;
            ApplyFixes(s, bundled, extent).0 == Insert(s, TreePlace(s), TreeNode(tasks.id.value, tasks.source))
  {
    hide FindTab, Strip, FirstVertical, FirstProjectCrs;
    NothingDangling(s, bundled);
    var tasks := FindTasks(s).value;
    NodeKeepsFinished(s, bundled, extent, TreePlace(s), tasks.id.value, tasks.source);
    ReportsIffTally(Insert(s, TreePlace(s), TreeNode(tasks.id.value, tasks.source)));
  }

  /** Whatever the document, the output of a second application is a
      fixpoint. */
  lemma TwoApplicationsSettle(s: seq<Token>, bundled: set<string>, extent: Option<Extent>)
    ensures var twice := ApplyFixes(ApplyFixes(s, bundled, extent).0, bundled, extent).0;
            ApplyFixes(twice, bundled, extent) == (twice, false)
  {
    hide ApplyFixes, NeedsTreeNode, Finished, Insert, TreePlace, FindTasks, TreeNode;
    var once := ApplyFixes(s, bundled, extent).0;
    OutputIsFinished(s, bundled, extent);
    FinishedStays(once, bundled, extent);
    if NeedsTreeNode(once) {
      FinishedGetsNode(once, bundled, extent);
      TreeFixSettles(once);
      var twice := ApplyFixes(once, bundled, extent).0;
      OutputIsFinished(once, bundled, extent);
      assert !NeedsTreeNode(twice);
      FinishedStays(twice, bundled, extent);
    }
  }

  // ---- a document that needs both ----

  const NESTED: seq<Token> := [
    MapLayerOpen, LayerName("tasks"), LayerId("t"), MapLayerClose,
    ContainerOpen(true, "form"), TreeLayerOpen("t", "s"), TreeLayerClose, ContainerClose,
    GroupOpen]

  const STRIPPED: seq<Token> := [MapLayerOpen, LayerName("tasks"), LayerId("t"), MapLayerClose, GroupOpen]

  lemma NestedTabIsEmpty()
    ensures SeeTab(NESTED, 0) == Tab(4, 8, false)
  {
    SeekIs(NESTED, 0, SurveyTag, 4);
    EndSkips(NESTED, 5, 1, 7);
    assert EndFrom(NESTED, 8, 0) == Some(8);
    assert EndFrom(NESTED, 7, 1) == Some(8);
    assert !HasContent(Body(NESTED, 4, 8));
  }

  lemma NestedTab()
    ensures StripEmptySurveyRootTabs(NESTED) == (STRIPPED, true)
  {
    NestedTabIsEmpty();
    var rest := [GroupOpen];
    assert SeeTab(rest, 0) == NoMore;
    hide SeeTab;
    assert NESTED[8..] == rest && NESTED[..4] + rest == STRIPPED;
    assert SkipBlanks(rest) == 0;
    assert Strip(rest) == Done(rest, 0);
    assert Strip(NESTED) == Prepend(NESTED[..4], 1, Strip(rest));
  }

  lemma NestedTasks(rest: seq<Token>)
    ensures FindTasks([MapLayerOpen, LayerName("tasks"), LayerId("t"), MapLayerClose] + rest)
            == Some(TasksLayer(Some("t"), "./tasks.gpkg"))
  {
    var s := [MapLayerOpen, LayerName("tasks"), LayerId("t"), MapLayerClose] + rest;
    var s1, s2, s3 := s[1..], s[1..][1..], s[1..][1..][1..];
    assert s1 == [LayerName("tasks"), LayerId("t"), MapLayerClose] + rest;
    assert s2 == [LayerId("t"), MapLayerClose] + rest && s3 == [MapLayerClose] + rest;
    assert s2[1].MapLayerClose?;
    assert HoldsTasks(s1);
    assert FirstId(s2) == Some("t");
    assert FirstSource(s2) == FirstSource(s3) == "./tasks.gpkg";
  }

  lemma NestedNeeds()
    ensures !NeedsTreeNode(NESTED) && NeedsTreeNode(STRIPPED)
  {
    NestedTasks(NESTED[4..]);
    assert NESTED == [MapLayerOpen, LayerName("tasks"), LayerId("t"), MapLayerClose] + NESTED[4..];
    assert NESTED[5] == TreeLayerOpen("t", "s");
    NestedTasks([GroupOpen]);
    assert STRIPPED == [MapLayerOpen, LayerName("tasks"), LayerId("t"), MapLayerClose] + [GroupOpen];
    SeekIs(STRIPPED, 0, GroupTag, 4);
  }

  lemma NestedTreeFixed()
    ensures TreeFixed(NESTED, {}) == NESTED
  {
    NothingDangling(NESTED, {});
    NestedNeeds();
    hide NeedsTreeNode;
  }

  /** The condition is needed: an empty Survey tab around the tasks layer's
      tree node is dropped with it, and the next application puts one back. */
  lemma DroppedTreeNodeComesBack()
    ensures ApplyFixes(ApplyFixes(NESTED, {}, None).0, {}, None).1
  {
    NestedNeeds();
    NestedTreeFixed();
    NestedTab();
    hide NeedsTreeNode, StripEmptySurveyRootTabs, ApplyFixes, TreeFixed;
    SecondApplicationIff(NESTED, {}, None);
  }
}
