/** The metadata fixes told by tags and places: which node goes in, with what
    in it, and where; and that every change is reported. */
module QgsLaws {
  import opened Text
  import opened QgsTokens
  import opened SurveyTabs
  import opened SurveyTabsProofs
  import opened QgsFixes
  import opened QgsFixpoint

  // ---- the map canvas ----

  /** The first project reference system that can be read. */
  ghost predicate CrsAt(s: seq<Token>, k: nat) {
    && k < |s| && s[k].ProjectCrs? && s[k].srs.Some?
    && forall i :: 0 <= i < k ==> !(s[i].ProjectCrs? && s[i].srs.Some?)
  }

  /** Right after the first vertical reference system, or, without one, after
      the first project reference system. */
  ghost predicate CanvasPlace(s: seq<Token>, at: nat) {
    && 0 < at <= |s|
    && if exists i :: 0 <= i < |s| && s[i].VerticalCrs?
       then s[at - 1].VerticalCrs? && forall i :: 0 <= i < at - 1 ==> !s[i].VerticalCrs?
       else s[at - 1].ProjectCrs? && forall i :: 0 <= i < at - 1 ==> !s[i].ProjectCrs?
  }

  lemma {:induction false} FirstSrsAt(s: seq<Token>) returns (k: nat)
    ensures FirstSrs(s).Some? ==> CrsAt(s, k) && FirstSrs(s) == s[k].srs
    ensures FirstSrs(s).None? ==> forall i :: 0 <= i < |s| ==> !(s[i].ProjectCrs? && s[i].srs.Some?)
    decreases |s|
  {
    k := 0;
    if s != [] && !(s[0].ProjectCrs? && s[0].srs.Some?) {
      var rest := FirstSrsAt(s[1..]);
      k := rest + 1;
      assert forall i :: 0 < i < |s| ==> s[i] == s[1..][i - 1];
    }
  }

  lemma {:induction false} FirstVerticalAt(s: seq<Token>)
    ensures FirstVertical(s).Some? ==>
      && s[FirstVertical(s).value].VerticalCrs?
      && forall i :: 0 <= i < FirstVertical(s).value ==> !s[i].VerticalCrs?
    ensures FirstVertical(s).None? ==> forall i :: 0 <= i < |s| ==> !s[i].VerticalCrs?
    decreases |s|
  {
    if s != [] && !s[0].VerticalCrs? {
      FirstVerticalAt(s[1..]);
      assert forall i :: 0 < i < |s| ==> s[i] == s[1..][i - 1];
    }
  }

  lemma {:induction false} FirstCrsAt(s: seq<Token>)
    requires FirstSrs(s).Some?
    ensures s[FirstProjectCrs(s)].ProjectCrs? && forall i :: 0 <= i < FirstProjectCrs(s) ==> !s[i].ProjectCrs?
    decreases |s|
  {
    if !s[0].ProjectCrs? {
      FirstCrsAt(s[1..]);
      assert forall i :: 0 < i < |s| ==> s[i] == s[1..][i - 1];
    }
  }

  /** The canvas goes in exactly when there is none and a reference system can
      be read. It has that reference system, the extent given, and degrees for
      a longlat system, meters for any other. */
  lemma CanvasLaw(s: seq<Token>, extent: Extent) returns (k: nat, at: nat)
    ensures var (t, changed) := InjectMapCanvas(s, extent);
      && (changed <==>
           && (forall i :: 0 <= i < |s| ==> !s[i].MapCanvas?)
           && (exists i :: 0 <= i < |s| && s[i].ProjectCrs? && s[i].srs.Some?))
      && (!changed ==> t == s)
      && (changed ==>
           && CrsAt(s, k) && CanvasPlace(s, at)
           && t == s[..at] + [
                Newline, BlankText,
                MapCanvas(
                  if s[k].srs.value.acronym == "longlat" then "degrees" else "meters",
                  extent, s[k].srs.value)] + s[at..])
  {
    hide FirstSrs, FirstVertical, FirstProjectCrs;
    k := FirstSrsAt(s);
    at := 0;
    FirstVerticalAt(s);
    if !HasCanvas(s) && FirstSrs(s).Some? {
      FirstCrsAt(s);
      at := if FirstVertical(s).Some? then FirstVertical(s).value + 1 else FirstProjectCrs(s) + 1;
    }
  }

  // ---- the tasks layer ----

  /** A layer block from its opening tag to the first closing one after it. */
  ghost predicate Block(s: seq<Token>, open: nat, close: nat) {
    && open < close < |s| && s[open].MapLayerOpen? && s[close].MapLayerClose?
    && forall i :: open < i < close ==> !s[i].MapLayerClose?
  }

  ghost predicate TasksBlock(s: seq<Token>, open: nat, close: nat) {
    Block(s, open, close) && exists i :: open < i < close && s[i] == LayerName("tasks")
  }

  ghost predicate FirstTasks(s: seq<Token>, open: nat, close: nat) {
    TasksBlock(s, open, close) && forall o: nat, c: nat :: o < open ==> !TasksBlock(s, o, c)
  }

  /** The first id in the block. */
  ghost predicate BlockId(s: seq<Token>, open: nat, close: nat, id: string) {
    exists i :: open < i < close <= |s| && s[i] == LayerId(id) && forall j :: open < j < i ==> !s[j].LayerId?
  }

  /** The first data source in the block, or the tasks file without one. */
  ghost predicate BlockSource(s: seq<Token>, open: nat, close: nat, source: string) {
    close <= |s| &&
    if exists i :: open < i < close && s[i].DataSource?
    then exists i :: open < i < close && s[i] == DataSource(source) && forall j :: open < j < i ==> !s[j].DataSource?
    else source == "./tasks.gpkg"
  }

  lemma {:induction false} CloseAt(b: seq<Token>) returns (c: nat)
    ensures c <= |b| && forall i :: 0 <= i < c ==> !b[i].MapLayerClose?
    ensures c < |b| ==> b[c].MapLayerClose?
    decreases |b|
  {
    c := 0;
    if b != [] && !b[0].MapLayerClose? {
      var rest := CloseAt(b[1..]);
      c := rest + 1;
      assert forall i :: 0 < i < |b| ==> b[i] == b[1..][i - 1];
    }
  }

  /** What the searches in a block see, up to the first closing tag at c. */
  lemma {:induction false} BlockReads(b: seq<Token>, c: nat)
    requires c < |b| && b[c].MapLayerClose? && forall i :: 0 <= i < c ==> !b[i].MapLayerClose?
    ensures HoldsTasks(b) <==> exists i :: 0 <= i < c && b[i] == LayerName("tasks")
    ensures FirstId(b).None? ==> forall i :: 0 <= i < c ==> !b[i].LayerId?
    ensures FirstId(b).Some? ==>
      exists i :: 0 <= i < c && b[i] == LayerId(FirstId(b).value) && forall j :: 0 <= j < i ==> !b[j].LayerId?
    decreases |b|
  {
    if c > 0 {
      var rest := b[1..];
      assert forall i :: 0 < i < |b| ==> b[i] == rest[i - 1];
      BlockReads(rest, c - 1);
      assert rest[c - 1].MapLayerClose?;
      if b[0].LayerId? {
        assert b[0] == LayerId(FirstId(b).value);
      } else if FirstId(rest).Some? {
        var i :| 0 <= i < c - 1 && rest[i] == LayerId(FirstId(rest).value)
          && forall j :: 0 <= j < i ==> !rest[j].LayerId?;
        assert b[i + 1] == LayerId(FirstId(b).value);
      }
    }
  }

  lemma {:induction false} SourceReads(b: seq<Token>, c: nat)
    requires c < |b| && b[c].MapLayerClose? && forall i :: 0 <= i < c ==> !b[i].MapLayerClose?
    ensures if exists i :: 0 <= i < c && b[i].DataSource?
            then exists i :: 0 <= i < c && b[i] == DataSource(FirstSource(b))
                   && forall j :: 0 <= j < i ==> !b[j].DataSource?
            else FirstSource(b) == "./tasks.gpkg"
    decreases |b|
  {
    if c > 0 {
      var rest := b[1..];
      assert forall i :: 0 < i < |b| ==> b[i] == rest[i - 1];
      SourceReads(rest, c - 1);
      if b[0].DataSource? {
        assert b[0] == DataSource(FirstSource(b));
      } else if i :| 0 <= i < c && b[i].DataSource? {
        assert rest[i - 1].DataSource?;
        var k :| 0 <= k < c - 1 && rest[k] == DataSource(FirstSource(rest))
          && forall j :: 0 <= j < k ==> !rest[j].DataSource?;
        assert b[k + 1] == DataSource(FirstSource(b));
      }
    }
  }

  lemma {:induction false} NoCloseNoTasks(b: seq<Token>)
    requires forall i :: 0 <= i < |b| ==> !b[i].MapLayerClose?
    ensures !HoldsTasks(b)
    decreases |b|
  {
    if b != [] { NoCloseNoTasks(b[1..]); }
  }

  /** The opening tag at `open` begins a block named "tasks". */
  lemma HoldsIsBlock(s: seq<Token>, open: nat)
    requires open < |s| && s[open].MapLayerOpen?
    ensures HoldsTasks(s[open + 1..]) <==> exists close: nat :: TasksBlock(s, open, close)
  {
    hide HoldsTasks, FirstId;
    var b := s[open + 1..];
    assert forall i :: 0 <= i < |b| ==> b[i] == s[open + 1 + i];
    var c := CloseAt(b);
    var close := open + 1 + c;
    if other: nat :| TasksBlock(s, open, other) {
      assert b[other - open - 1].MapLayerClose?;
      assert s[close].MapLayerClose?;
      var i :| open < i < close && s[i] == LayerName("tasks");
      assert b[i - open - 1] == LayerName("tasks");
    }
    if c == |b| {
      NoCloseNoTasks(b);
    } else {
      BlockReads(b, c);
      if i :| 0 <= i < c && b[i] == LayerName("tasks") {
        assert s[open + 1 + i] == LayerName("tasks");
        assert TasksBlock(s, open, close);
      }
    }
  }

  lemma {:induction false} TasksAt(s: seq<Token>) returns (open: nat)
    ensures open <= |s| && (open < |s| <==> FindTasks(s).Some?)
    ensures open < |s| ==> s[open].MapLayerOpen? && HoldsTasks(s[open + 1..])
    ensures open < |s| ==> FindTasks(s).value == TasksLayer(FirstId(s[open + 1..]), FirstSource(s[open + 1..]))
    ensures forall o :: 0 <= o < open ==> !(s[o].MapLayerOpen? && HoldsTasks(s[o + 1..]))
    decreases |s|
  {
    hide HoldsTasks, FirstId, FirstSource;
    open := 0;
    if s != [] && !(s[0].MapLayerOpen? && HoldsTasks(s[1..])) {
      var rest := TasksAt(s[1..]);
      open := rest + 1;
      assert forall o :: 0 < o < |s| ==> s[o] == s[1..][o - 1] && s[o + 1..] == s[1..][o..];
    }
  }

  /** The tasks layer found is the first block of that name, with the first id
      and the first data source in it. */
  lemma TasksLaw(s: seq<Token>) returns (open: nat, close: nat)
    ensures FindTasks(s).Some? <==> exists o: nat, c: nat :: TasksBlock(s, o, c)
    ensures FindTasks(s).Some? ==>
      && FirstTasks(s, open, close)
      && BlockSource(s, open, close, FindTasks(s).value.source)
      && (FindTasks(s).value.id.Some? ==> BlockId(s, open, close, FindTasks(s).value.id.value))
      && (FindTasks(s).value.id.None? ==> forall i :: open < i < close ==> !s[i].LayerId?)
  {
    hide HoldsTasks, FirstId, FirstSource, FindTasks;
    open := TasksAt(s);
    close := 0;
    forall o: nat | o < |s| && s[o].MapLayerOpen?
      ensures HoldsTasks(s[o + 1..]) <==> exists c: nat :: TasksBlock(s, o, c)
    {
      HoldsIsBlock(s, o);
    }
    if open < |s| {
      close :| TasksBlock(s, open, close);
      var b, c := s[open + 1..], close - open - 1;
      assert forall i :: open < i < |s| ==> s[i] == b[i - open - 1];
      BlockReads(b, c);
      SourceReads(b, c);
      BlockIdIs(s, open, close);
      BlockSourceIs(s, open, close);
    }
  }

  lemma BlockIdIs(s: seq<Token>, open: nat, close: nat)
    requires Block(s, open, close)
    ensures var id := FirstId(s[open + 1..]);
      && (id.Some? ==> BlockId(s, open, close, id.value))
      && (id.None? ==> forall i :: open < i < close ==> !s[i].LayerId?)
  {
    hide HoldsTasks, FirstId;
    var b, c := s[open + 1..], close - open - 1;
    assert forall i :: open < i < |s| ==> s[i] == b[i - open - 1];
    BlockReads(b, c);
    if FirstId(b).Some? {
      var i :| 0 <= i < c && b[i] == LayerId(FirstId(b).value) && forall j :: 0 <= j < i ==> !b[j].LayerId?;
      assert s[open + 1 + i] == LayerId(FirstId(b).value);
    }
  }

  lemma BlockSourceIs(s: seq<Token>, open: nat, close: nat)
    requires Block(s, open, close)
    ensures BlockSource(s, open, close, FirstSource(s[open + 1..]))
  {
    hide FirstSource;
    var b, c := s[open + 1..], close - open - 1;
    assert forall i :: open < i < |s| ==> s[i] == b[i - open - 1];
    SourceReads(b, c);
    if i :| open < i < close && s[i].DataSource? {
      assert b[i - open - 1].DataSource?;
      var k :| 0 <= k < c && b[k] == DataSource(FirstSource(b)) && forall j :: 0 <= j < k ==> !b[j].DataSource?;
      assert s[open + 1 + k] == DataSource(FirstSource(b));
    }
  }

  ghost predicate FirstGroup(s: seq<Token>, group: nat) {
    group < |s| && s[group] == GroupOpen && forall i :: 0 <= i < group ==> s[i] != GroupOpen
  }

  /** Right after the first tree layer that ends behind this tag, or, without
      one, right after the tag. */
  ghost predicate TreeBehind(s: seq<Token>, group: nat, at: nat) {
    && group < at <= |s|
    && if exists i :: group < i < |s| && s[i] == TreeLayerClose
       then at - 1 > group && s[at - 1] == TreeLayerClose && forall i :: group < i < at - 1 ==> s[i] != TreeLayerClose
       else at == group + 1
  }

  ghost predicate TreeAt(s: seq<Token>, at: nat) {
    exists group: nat :: FirstGroup(s, group) && TreeBehind(s, group, at)
  }

  /** The node goes in exactly when the first tasks block has an id, no tree
      layer has that id, and there is a group. It has that id and the block's
      data source. */
  lemma TreeLaw(s: seq<Token>) returns (open: nat, close: nat, at: nat)
    ensures var (t, changed) := FixTaskLayerTree(s);
      && (!changed ==> t == s)
      && (changed <==>
           && (exists i :: 0 <= i < |s| && s[i] == GroupOpen)
           && exists o: nat, c: nat, id: string ::
                && FirstTasks(s, o, c) && BlockId(s, o, c, id)
                && forall i :: 0 <= i < |s| ==> !(s[i].TreeLayerOpen? && s[i].id == id))
      && (changed ==>
           && FirstTasks(s, open, close) && TreeAt(s, at)
           && exists id: string, source: string ::
                && BlockId(s, open, close, id) && BlockSource(s, open, close, source)
                && t == s[..at] + [
                     Newline, BlankText,
                     TreeLayerOpen(id, source), Other("customproperties"), TreeLayerClose] + s[at..])
  {
    hide FindTasks, FirstId, FirstSource;
    open, close := TasksLaw(s);
    at := 0;
    var tasks := FindTasks(s);
    forall o: nat, c: nat, id: string | FirstTasks(s, o, c) && BlockId(s, o, c, id)
      ensures tasks.Some? && tasks.value.id == Some(id)
    {
      SameBlock(s, o, c, open, close);
      IdIsUnique(s, o, c, id, tasks.value.id);
    }
    if Seek(s, 0, GroupTag).Some? {
      at := TreePlace(s);
      TreePlaceIs(s);
    }
    if NeedsTreeNode(s) { assert BlockId(s, open, close, tasks.value.id.value); }
  }

  lemma SameBlock(s: seq<Token>, o: nat, c: nat, open: nat, close: nat)
    requires FirstTasks(s, o, c) && FirstTasks(s, open, close)
    ensures o == open && c == close
  {
    assert TasksBlock(s, o, c) && TasksBlock(s, open, close);
  }

  lemma IdIsUnique(s: seq<Token>, open: nat, close: nat, id: string, found: Option<string>)
    requires BlockId(s, open, close, id)
    requires found.Some? ==> BlockId(s, open, close, found.value)
    requires found.None? ==> forall i :: open < i < close <= |s| ==> !s[i].LayerId?
    ensures found == Some(id)
  {
    var i :| open < i < close <= |s| && s[i] == LayerId(id) && forall j :: open < j < i ==> !s[j].LayerId?;
    if found.Some? {
      var k :| open < k < close <= |s| && s[k] == LayerId(found.value) && forall j :: open < j < k ==> !s[j].LayerId?;
      assert i == k;
    }
  }

  lemma TreePlaceIs(s: seq<Token>)
    requires Seek(s, 0, GroupTag).Some?
    ensures TreeAt(s, TreePlace(s))
  {
    hide Seek, Is, FirstGroup, TreeBehind;
    SoughtGroup(s);
    SoughtTree(s, Seek(s, 0, GroupTag).value);
  }

  lemma SoughtGroup(s: seq<Token>)
    requires Seek(s, 0, GroupTag).Some?
    ensures FirstGroup(s, Seek(s, 0, GroupTag).value)
  {
    hide Seek;
  }

  lemma SoughtTree(s: seq<Token>, group: nat)
    requires group < |s|
    ensures var end := Seek(s, group + 1, TreeLayerCloseTag);
      TreeBehind(s, group, if end.Some? then end.value + 1 else group + 1)
  {
    hide Seek;
    var end := Seek(s, group + 1, TreeLayerCloseTag);
    if end.Some? { assert s[end.value] == TreeLayerClose; }
  }

  // ---- all fixes ----

  /** A document that is not reported changed is not changed. */
  lemma ChangeIsReported(s: seq<Token>, bundled: set<string>, extent: Option<Extent>)
    ensures ApplyFixes(s, bundled, extent).0 != s ==> ApplyFixes(s, bundled, extent).1
  {
    hide FindTab, Strip, NeedsTreeNode, TreePlace, FindTasks, FirstSrs, FirstVertical, FirstProjectCrs, Insert;
    if !FixDanglingIccRefs(s, bundled).1 {
      forall t | t in s
        ensures !Dangling(t, bundled)
      {
        var i :| 0 <= i < |s| && s[i] == t;
      }
      NothingDangling(s, bundled);
    }
    ReportsIffTally(TreeFixed(s, bundled));
  }
}
