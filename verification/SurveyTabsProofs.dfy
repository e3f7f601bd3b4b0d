/** What stripping empty Survey tabs keeps: every field and relation with its
    path of tabs, the balance of tags, and its own result. */
module SurveyTabsProofs {
  import opened Text
  import opened QgsTokens
  import opened SurveyTabs

  // ---- the shape of a dropped block ----

  /** A Survey tab without field, relation or inner container. */
  predicate EmptyTabAt(s: seq<Token>, open: nat, end: nat) {
    && open + 1 < end <= |s|
    && IsSurvey(s[open]) && IsClose(s[end - 1])
    && forall j :: open < j < end - 1 ==> !IsContent(s[j]) && !IsClose(s[j])
  }

  /** All the spaces that follow `from`, and a line break if one comes next. */
  predicate BlanksAt(s: seq<Token>, from: nat, to: nat) {
    && from <= to <= |s|
    && (forall j :: from <= j < to - 1 ==> s[j].BlankText?)
    && (from < to ==> s[to - 1].BlankText? || s[to - 1].Newline?)
    && (to < |s| && (from == to || s[to - 1].BlankText?) ==> !s[to].BlankText? && !s[to].Newline?)
  }

  /** Without inner containers the first closing tag ends the block. */
  lemma {:induction false} FirstCloseEnds(s: seq<Token>, pos: nat, end: nat)
    requires pos < end <= |s| && EndFrom(s, pos, 1) == Some(end)
    requires forall j :: pos <= j < end - 1 ==> !IsOpen(s[j])
    ensures forall j :: pos <= j < end - 1 ==> !IsClose(s[j])
    decreases |s| - pos
  {
    if pos < end - 1 && !IsClose(s[pos]) { FirstCloseEnds(s, pos + 1, end); }
  }

  lemma NoContentMeansEmpty(s: seq<Token>, open: nat, end: nat)
    requires open < |s| && IsSurvey(s[open]) && BlockEnd(s, open) == Some(end)
    requires !HasContent(Body(s, open, end))
    ensures EmptyTabAt(s, open, end)
  {
    var body := Body(s, open, end);
    forall j | open < j < end - 1
      ensures !IsContent(s[j])
    {
      assert s[j] == body[j - open - 1];
    }
    FirstCloseEnds(s, open + 1, end);
  }

  lemma {:induction false} SkippedAreBlanks(s: seq<Token>, end: nat)
    requires end <= |s|
    ensures BlanksAt(s, end, end + SkipBlanks(s[end..]))
    decreases |s| - end
  {
    if end < |s| && s[end].BlankText? {
      SkippedAreBlanks(s, end + 1);
      assert s[end..][1..] == s[end + 1..];
    }
  }

  lemma DroppedShape(s: seq<Token>, pos: nat)
    requires pos <= |s| && FindTab(s, pos).Dropped?
    ensures var Dropped(open, end, after) := FindTab(s, pos);
            && EmptyTabAt(s, open, end) && BlanksAt(s, end, after)
            && forall j :: pos <= j < open ==> !IsSurvey(s[j])
  {
    var open := Seek(s, pos, SurveyTag).value;
    NoContentMeansEmpty(s, open, BlockEnd(s, open).value);
    SkippedAreBlanks(s, BlockEnd(s, open).value);
  }

  /** s and t agree up to an empty Survey tab of s. */
  predicate CutHere(s: seq<Token>, t: seq<Token>, open: nat, end: nat, after: nat) {
    && EmptyTabAt(s, open, end) && BlanksAt(s, end, after)
    && open <= |t| && forall j :: 0 <= j < open ==> t[j] == s[j]
  }

  /** t is s with only empty Survey tabs, and blanks after them, cut out. */
  ghost predicate OnlyEmptyTabsCut(s: seq<Token>, t: seq<Token>)
    decreases |s|
  {
    s == t ||
    exists open: nat, end: nat, after: nat ::
      CutHere(s, t, open, end, after) && OnlyEmptyTabsCut(s[after..], t[open..])
  }

  lemma CutHereAfterPrefix(pre: seq<Token>, s: seq<Token>, t: seq<Token>, open: nat, end: nat, after: nat)
    requires CutHere(s, t, open, end, after)
    ensures CutHere(pre + s, pre + t, |pre| + open, |pre| + end, |pre| + after)
  {
  }

  lemma DropPrefix(pre: seq<Token>, s: seq<Token>, k: nat)
    requires k <= |s|
    ensures (pre + s)[|pre| + k..] == s[k..]
  {
  }

  lemma CutAfterPrefix(pre: seq<Token>, s: seq<Token>, t: seq<Token>)
    requires OnlyEmptyTabsCut(s, t)
    ensures OnlyEmptyTabsCut(pre + s, pre + t)
  {
    if s != t {
      var open: nat, end: nat, after: nat :|
        CutHere(s, t, open, end, after) && OnlyEmptyTabsCut(s[after..], t[open..]);
      CutHereAfterPrefix(pre, s, t, open, end, after);
      hide CutHere;
      DropPrefix(pre, s, after);
      DropPrefix(pre, t, open);
    }
  }

  lemma CutLater(s: seq<Token>, end: nat, rest: seq<Token>)
    requires end <= |s| && OnlyEmptyTabsCut(s[end..], rest)
    ensures OnlyEmptyTabsCut(s, s[..end] + rest)
  {
    CutAfterPrefix(s[..end], s[end..], rest);
    assert s[..end] + s[end..] == s;
  }

  lemma CutFront(s: seq<Token>, open: nat, end: nat, after: nat, rest: seq<Token>)
    requires EmptyTabAt(s, open, end) && BlanksAt(s, end, after) && OnlyEmptyTabsCut(s[after..], rest)
    ensures OnlyEmptyTabsCut(s, s[..open] + rest)
  {
    var t := s[..open] + rest;
    assert t[open..] == rest;
    assert CutHere(s, t, open, end, after);
  }

  /** Nothing but empty Survey tabs is deleted. */
  lemma {:induction false} StripCutsOnlyEmptyTabs(s: seq<Token>)
    requires Strip(s).Done?
    ensures OnlyEmptyTabsCut(s, Strip(s).tokens)
    decreases |s|
  {
    hide FindTab, EmptyTabAt, BlanksAt;
    match FindTab(s, 0)
    case NoTab =>
    case Unclosed =>
    case Kept(end) =>
      StripCutsOnlyEmptyTabs(s[end..]);
      CutLater(s, end, Strip(s[end..]).tokens);
    case Dropped(open, end, after) =>
      StripCutsOnlyEmptyTabs(s[after..]);
      DroppedShape(s, 0);
      CutFront(s, open, end, after, Strip(s[after..]).tokens);
  }

  /** The count of removed tabs says whether anything was changed: each takes
      at least its two tags away. */
  lemma {:induction false} RemovedCounts(s: seq<Token>)
    requires Strip(s).Done?
    ensures |Strip(s).tokens| + 2 * Strip(s).removed <= |s|
    ensures Strip(s).removed == 0 <==> Strip(s).tokens == s
    decreases |s|
  {
    hide FindTab;
    match FindTab(s, 0)
    case NoTab =>
    case Unclosed =>
    case Kept(end) =>
      RemovedCounts(s[end..]);
      assert s[..end] + s[end..] == s;
    case Dropped(open, end, after) =>
      RemovedCounts(s[after..]);
  }

  // ---- fields, relations and their paths ----

  /** The open containers after reading s, innermost last. */
  function StackAfter(s: seq<Token>, stack: seq<Token>): seq<Token>
    decreases |s|
  {
    if s == [] then stack
    else if IsOpen(s[0]) then StackAfter(s[1..], stack + [s[0]])
    else if IsClose(s[0]) then StackAfter(s[1..], if stack == [] then [] else stack[..|stack| - 1])
    else StackAfter(s[1..], stack)
  }

  /** Every field and relation with the containers around it, in order. */
  function Placed(s: seq<Token>, stack: seq<Token>): seq<(Token, seq<Token>)>
    decreases |s|
  {
    if s == [] then []
    else if IsOpen(s[0]) then Placed(s[1..], stack + [s[0]])
    else if IsClose(s[0]) then Placed(s[1..], if stack == [] then [] else stack[..|stack| - 1])
    else if s[0].Field? || s[0].Relation? then [(s[0], stack)] + Placed(s[1..], stack)
    else Placed(s[1..], stack)
  }

  /** What is placed are the fields and the relations, each where the tags
      before it leave it. */
  lemma {:induction false} PlacedAre(s: seq<Token>, stack: seq<Token>)
    ensures forall i :: 0 <= i < |s| && (s[i].Field? || s[i].Relation?) ==>
      (s[i], StackAfter(s[..i], stack)) in Placed(s, stack)
    ensures forall x :: x in Placed(s, stack) ==> (x.0.Field? || x.0.Relation?) && x.0 in s
    decreases |s|
  {
    if s != [] {
      var next := if IsOpen(s[0]) then stack + [s[0]]
                  else if IsClose(s[0]) then (if stack == [] then [] else stack[..|stack| - 1])
                  else stack;
      PlacedAre(s[1..], next);
      forall i | 0 < i < |s| && (s[i].Field? || s[i].Relation?)
        ensures (s[i], StackAfter(s[..i], stack)) in Placed(s, stack)
      {
        assert s[i] == s[1..][i - 1] && s[..i][1..] == s[1..][..i - 1];
      }
      assert s[..0] == [];
    }
  }

  /** The depth after s, `None` once a closing tag has no opening one. */
  function Depth(s: seq<Token>, depth: nat): Option<nat>
    decreases |s|
  {
    if s == [] then Some(depth)
    else if IsOpen(s[0]) then Depth(s[1..], depth + 1)
    else if IsClose(s[0]) then (if depth == 0 then None else Depth(s[1..], depth - 1))
    else Depth(s[1..], depth)
  }

  predicate Balanced(s: seq<Token>) {
    Depth(s, 0) == Some(0)
  }

  lemma {:induction false} PlacedConcat(a: seq<Token>, b: seq<Token>, stack: seq<Token>)
    ensures StackAfter(a + b, stack) == StackAfter(b, StackAfter(a, stack))
    ensures Placed(a + b, stack) == Placed(a, stack) + Placed(b, StackAfter(a, stack))
    decreases |a|
  {
    if a == [] {
      assert a + b == b;
    } else {
      assert (a + b)[1..] == a[1..] + b;
      var next := if IsOpen(a[0]) then stack + [a[0]]
                  else if IsClose(a[0]) then (if stack == [] then [] else stack[..|stack| - 1])
                  else stack;
      PlacedConcat(a[1..], b, next);
    }
  }

  lemma {:induction false} DepthConcat(a: seq<Token>, b: seq<Token>, depth: nat)
    ensures var d := Depth(a, depth); Depth(a + b, depth) == if d.None? then None else Depth(b, d.value)
    decreases |a|
  {
    if a == [] {
      assert a + b == b;
    } else {
      assert (a + b)[1..] == a[1..] + b;
      if IsOpen(a[0]) { DepthConcat(a[1..], b, depth + 1); }
      else if !IsClose(a[0]) { DepthConcat(a[1..], b, depth); }
      else if depth > 0 { DepthConcat(a[1..], b, depth - 1); }
    }
  }

  lemma {:induction false} NeutralIsInvisible(n: seq<Token>, stack: seq<Token>, depth: nat)
    requires Neutral(n)
    ensures StackAfter(n, stack) == stack && Placed(n, stack) == [] && Depth(n, depth) == Some(depth)
    decreases |n|
  {
    if n != [] { NeutralIsInvisible(n[1..], stack, depth); }
  }

  lemma EmptyTabIsInvisible(s: seq<Token>, open: nat, end: nat, stack: seq<Token>, depth: nat)
    requires EmptyTabAt(s, open, end)
    ensures var b := s[open..end];
            StackAfter(b, stack) == stack && Placed(b, stack) == [] && Depth(b, depth) == Some(depth)
  {
    var b := s[open..end];
    var body := s[open + 1..end - 1];
    var close := [s[end - 1]];
    assert b[1..] == body + close;
    assert Neutral(body) by {
      assert forall j :: 0 <= j < |body| ==> body[j] == s[open + 1 + j];
    }
    NeutralIsInvisible(body, stack + [b[0]], depth + 1);
    PlacedConcat(body, close, stack + [b[0]]);
    DepthConcat(body, close, depth + 1);
    assert (stack + [b[0]])[..|stack|] == stack;
  }

  /** What a dropped tab with its blanks does to the reading: nothing. */
  lemma CutIsInvisible(s: seq<Token>, open: nat, end: nat, after: nat, stack: seq<Token>, depth: nat)
    requires EmptyTabAt(s, open, end) && BlanksAt(s, end, after)
    ensures StackAfter(s[open..], stack) == StackAfter(s[after..], stack)
    ensures Placed(s[open..], stack) == Placed(s[after..], stack)
    ensures Depth(s[open..], depth) == Depth(s[after..], depth)
  {
    var tab, gap, rest := s[open..end], s[end..after], s[after..];
    assert s[open..] == tab + (gap + rest);
    assert Neutral(gap) by {
      assert forall j :: 0 <= j < |gap| ==> gap[j] == s[end + j];
    }
    PlacedConcat(tab, gap + rest, stack);
    PlacedConcat(gap, rest, stack);
    DepthConcat(tab, gap + rest, depth);
    DepthConcat(gap, rest, depth);
    EmptyTabIsInvisible(s, open, end, stack, depth);
    NeutralIsInvisible(gap, stack, depth);
  }

  /** Two suffixes that read alike still do after the same beginning. */
  lemma SamePrefix(pre: seq<Token>, a: seq<Token>, b: seq<Token>, stack: seq<Token>, depth: nat)
    requires var st := StackAfter(pre, stack);
             StackAfter(a, st) == StackAfter(b, st) && Placed(a, st) == Placed(b, st)
    requires var d := Depth(pre, depth); d.Some? ==> Depth(a, d.value) == Depth(b, d.value)
    ensures StackAfter(pre + a, stack) == StackAfter(pre + b, stack)
    ensures Placed(pre + a, stack) == Placed(pre + b, stack)
    ensures Depth(pre + a, depth) == Depth(pre + b, depth)
  {
    PlacedConcat(pre, a, stack);
    PlacedConcat(pre, b, stack);
    DepthConcat(pre, a, depth);
    DepthConcat(pre, b, depth);
  }

  /** Stripping keeps every field and relation, in order, each inside the
      same containers, and what is open at the end. */
  lemma {:induction false} StripKeepsMeaning(s: seq<Token>, stack: seq<Token>, depth: nat)
    requires Strip(s).Done?
    ensures var t := Strip(s).tokens;
            && Placed(t, stack) == Placed(s, stack)
            && StackAfter(t, stack) == StackAfter(s, stack)
            && Depth(t, depth) == Depth(s, depth)
    decreases |s|
  {
    hide FindTab;
    match FindTab(s, 0)
    case NoTab =>
    case Unclosed =>
    case Kept(end) =>
      var d := Depth(s[..end], depth);
      StripKeepsMeaning(s[end..], StackAfter(s[..end], stack), if d.Some? then d.value else 0);
      SamePrefix(s[..end], Strip(s[end..]).tokens, s[end..], stack, depth);
      assert s == s[..end] + s[end..];
    case Dropped(open, end, after) =>
      var st, d := StackAfter(s[..open], stack), Depth(s[..open], depth);
      var d' := if d.Some? then d.value else 0;
      DroppedShape(s, 0);
      CutIsInvisible(s, open, end, after, st, d');
      StripKeepsMeaning(s[after..], st, d');
      SamePrefix(s[..open], Strip(s[after..]).tokens, s[open..], stack, depth);
      assert s == s[..open] + s[open..];
  }

  /** A document stays balanced, and an unbalanced one stays unbalanced. */
  lemma StripKeepsBalance(s: seq<Token>)
    ensures Depth(StripEmptySurveyRootTabs(s).0, 0) == Depth(s, 0)
    ensures Balanced(StripEmptySurveyRootTabs(s).0) <==> Balanced(s)
    ensures Placed(StripEmptySurveyRootTabs(s).0, []) == Placed(s, [])
  {
    hide FindTab;
    if Strip(s).Done? { StripKeepsMeaning(s, [], 0); }
  }

  // ---- when the pass gives up ----

  /** A Survey tab at k that is never closed. */
  predicate UnclosedAt(s: seq<Token>, k: nat) {
    k < |s| && IsSurvey(s[k]) && BlockEnd(s, k).None?
  }

  lemma UnclosedSuffix(s: seq<Token>, pos: nat, k: nat)
    requires pos <= k < |s|
    ensures UnclosedAt(s, k) <==> UnclosedAt(s[pos..], k - pos)
  {
    BlockSuffix(s, pos, k);
  }

  /** The pass leaves the document alone for want of a closing tag exactly
      when some Survey tab, nested or not, is never closed. */
  lemma {:induction false} AbortsIffUnclosed(s: seq<Token>)
    ensures Strip(s).Aborted? <==> exists k: nat :: UnclosedAt(s, k)
    decreases |s|
  {
    UnclosedIsNext(s);
    hide SeeTab, UnclosedAt, BlanksAt;
    match FindTab(s, 0)
    case NoTab =>
    case Unclosed =>
    case Kept(end) =>
      AbortsIffUnclosed(s[end..]);
      UnclosedAfter(s, end, end);
    case Dropped(open, end, after) =>
      AbortsIffUnclosed(s[after..]);
      SkippedAreBlanks(s, end);
      UnclosedAfter(s, end, after);
  }

  lemma UnclosedIsNext(s: seq<Token>)
    ensures SeeTab(s, 0).NoMore? ==> forall k: nat :: !UnclosedAt(s, k)
    ensures SeeTab(s, 0).Never? ==> exists k: nat :: UnclosedAt(s, k)
  {
    if SeeTab(s, 0).Never? { assert UnclosedAt(s, Seek(s, 0, SurveyTag).value); }
  }

  /** Past a closed tab and blanks, an unclosed tab is one of the rest. */
  lemma UnclosedAfter(s: seq<Token>, end: nat, after: nat)
    requires SeeTab(s, 0).Tab? && SeeTab(s, 0).end == end
    requires after == end || BlanksAt(s, end, after)
    ensures (exists k: nat :: UnclosedAt(s, k)) <==> (exists k: nat :: UnclosedAt(s[after..], k))
  {
    NoneUnclosedInside(s, end);
    UnclosedInRest(s, after);
  }

  lemma NoneUnclosedInside(s: seq<Token>, end: nat)
    requires var open := Seek(s, 0, SurveyTag); open.Some? && BlockEnd(s, open.value) == Some(end)
    ensures forall k: nat :: k < end ==> !UnclosedAt(s, k)
  {
    var open := Seek(s, 0, SurveyTag).value;
    forall k: nat | k < end && IsSurvey(s[k])
      ensures BlockEnd(s, k).Some?
    {
      if k > open { InnerEnds(s, open + 1, 1, k); }
    }
  }

  lemma UnclosedInRest(s: seq<Token>, pos: nat)
    requires pos <= |s| && forall k: nat :: k < pos && IsSurvey(s[k]) ==> !UnclosedAt(s, k)
    ensures (exists k: nat :: UnclosedAt(s, k)) <==> (exists k: nat :: UnclosedAt(s[pos..], k))
  {
    if k: nat :| UnclosedAt(s, k) {
      UnclosedSuffix(s, pos, k);
      assert UnclosedAt(s[pos..], k - pos);
    }
    if k: nat :| UnclosedAt(s[pos..], k) {
      UnclosedSuffix(s, pos, pos + k);
      assert UnclosedAt(s, pos + k);
    }
  }

  // ---- how many tabs a pass removes ----

  /** The number of tabs the pass removes, `None` when it gives up. */
  function Tally(s: seq<Token>): Option<nat>
    decreases |s|
  {
    match SeeTab(s, 0)
    case NoMore => Some(0)
    case Never => None
    case Tab(_, end, full) => Shift(Tally(s[end..]), if full then 0 else 1)
  }

  lemma SeePastPrefix(a: seq<Token>, b: seq<Token>)
    requires forall j :: 0 <= j < |a| ==> !IsSurvey(a[j])
    ensures SeeTab(a + b, 0) == ShiftSeen(SeeTab(b, 0), |a|)
  {
    var s := a + b;
    assert s[|a|..] == b;
    SeeTabSuffix(s, |a|);
    var open := Seek(s, |a|, SurveyTag);
    if open.Some? { SeekIs(s, 0, SurveyTag, open.value); }
  }

  lemma TallyPrefix(a: seq<Token>, b: seq<Token>)
    requires forall j :: 0 <= j < |a| ==> !IsSurvey(a[j])
    ensures Tally(a + b) == Tally(b)
  {
    hide SeeTab;
    SeePastPrefix(a, b);
    var seen := SeeTab(b, 0);
    if seen.Tab? { DropPrefix(a, b, seen.end); }
  }

  lemma TallyPastBlanks(s: seq<Token>, end: nat)
    requires end <= |s|
    ensures Tally(s[end..]) == Tally(s[end + SkipBlanks(s[end..])..])
  {
    hide Tally, SkipBlanks;
    var after := end + SkipBlanks(s[end..]);
    SkippedAreBlanks(s, end);
    TallyPrefix(s[end..after], s[after..]);
    assert s[end..] == s[end..after] + s[after..];
  }

  lemma {:induction false} TallyIsRemoved(s: seq<Token>)
    ensures Tally(s) == if Strip(s).Aborted? then None else Some(Strip(s).removed)
    decreases |s|
  {
    hide SeeTab, SkipBlanks;
    match FindTab(s, 0)
    case NoTab =>
    case Unclosed =>
    case Kept(end) => TallyIsRemoved(s[end..]);
    case Dropped(open, end, after) =>
      TallyIsRemoved(s[after..]);
      TallyPastBlanks(s, end);
  }

  /** The end of a container depends only on what is before the end. */
  lemma {:induction false} EndAgrees(s: seq<Token>, t: seq<Token>, pos: nat, depth: nat)
    requires pos <= |s| && EndFrom(s, pos, depth).Some? && EndFrom(s, pos, depth).value <= |t|
    requires forall j :: pos <= j < EndFrom(s, pos, depth).value ==> t[j] == s[j]
    ensures EndFrom(t, pos, depth) == EndFrom(s, pos, depth)
    decreases |s| - pos
  {
    if depth > 0 { EndAgrees(s, t, pos + 1, NextDepth(s[pos], depth)); }
  }

  lemma SeeKept(s: seq<Token>, open: nat, end: nat, rest: seq<Token>)
    requires SeeTab(s, 0) == Tab(open, end, true)
    ensures SeeTab(s[..end] + rest, 0) == Tab(open, end, true)
  {
    var t := s[..end] + rest;
    SeekIs(t, 0, SurveyTag, open);
    EndAgrees(s, t, open + 1, 1);
    assert Body(t, open, end) == Body(s, open, end);
  }

  lemma {:induction false} StrippedHasNone(s: seq<Token>)
    requires Strip(s).Done?
    ensures Tally(Strip(s).tokens) == Some(0)
    decreases |s|
  {
    hide SeeTab;
    match FindTab(s, 0)
    case NoTab =>
    case Unclosed =>
    case Kept(end) =>
      StrippedHasNone(s[end..]);
      var rest := Strip(s[end..]).tokens;
      SeeKept(s, SeeTab(s, 0).open, end, rest);
      assert (s[..end] + rest)[end..] == rest;
    case Dropped(open, end, after) =>
      StrippedHasNone(s[after..]);
      DroppedShape(s, 0);
      TallyPrefix(s[..open], Strip(s[after..]).tokens);
  }

  /** Whether the pass reports a change is whether it would remove a tab. */
  lemma ReportsIffTally(s: seq<Token>)
    ensures StripEmptySurveyRootTabs(s).1 <==> Tally(s).Some? && Tally(s).value > 0
    ensures !StripEmptySurveyRootTabs(s).1 ==> StripEmptySurveyRootTabs(s).0 == s
  {
    hide SeeTab;
    TallyIsRemoved(s);
  }

  // ---- the tabs that are left ----

  /** The end is where the depth comes down to zero for the first time. */
  lemma {:induction false} EndIsFirstZero(s: seq<Token>, pos: nat, depth: nat, end: nat)
    requires pos <= end <= |s|
    ensures EndFrom(s, pos, depth) == Some(end) <==>
      && Depth(s[pos..end], depth) == Some(0)
      && forall k :: pos <= k < end ==> Depth(s[pos..k], depth).Some? && Depth(s[pos..k], depth).value > 0
    decreases end - pos
  {
    if depth == 0 || pos == end {
      assert s[pos..pos] == [];
    } else {
      var next := NextDepth(s[pos], depth);
      EndIsFirstZero(s, pos + 1, next, end);
      forall k | pos < k <= end
        ensures Depth(s[pos..k], depth) == Depth(s[pos + 1..k], next)
      {
        assert s[pos..k][1..] == s[pos + 1..k];
      }
      if Depth(s[pos..end], depth) == Some(0) && EndFrom(s, pos, depth) != Some(end) {
        var k :| pos < k < end && !(Depth(s[pos + 1..k], next).Some? && Depth(s[pos + 1..k], next).value > 0);
        assert Depth(s[pos..k], depth) == Depth(s[pos + 1..k], next);
      }
    }
  }

  /** A Survey tab with neither field, relation nor tab in it. */
  ghost predicate HoldsNothing(s: seq<Token>, open: nat, close: nat) {
    && open < close < |s|
    && s[open].ContainerOpen? && s[open].survey && s[close].ContainerClose?
    && forall j :: open < j < close ==>
         !s[j].Field? && !s[j].Relation? && !s[j].ContainerOpen? && !s[j].ContainerClose?
  }

  /** A Survey tab is open where s ends. */
  ghost predicate InSurvey(s: seq<Token>, stack: seq<Token>) {
    var st := StackAfter(s, stack);
    exists i :: 0 <= i < |st| && st[i].ContainerOpen? && st[i].survey
  }

  /** Before its end a container stays open. */
  lemma {:induction false} StillOpen(s: seq<Token>, pos: nat, depth: nat, k: nat, stack: seq<Token>)
    requires pos <= k <= |s| && 0 < depth <= |stack|
    requires EndFrom(s, pos, depth).None? || k < EndFrom(s, pos, depth).value
    ensures var st := StackAfter(s[pos..k], stack);
            |st| > |stack| - depth && st[|stack| - depth] == stack[|stack| - depth]
    decreases k - pos
  {
    if pos == k {
      assert s[pos..k] == [];
    } else {
      assert s[pos..k][1..] == s[pos + 1..k];
      var next := if IsOpen(s[pos]) then stack + [s[pos]]
                  else if IsClose(s[pos]) then stack[..|stack| - 1]
                  else stack;
      StillOpen(s, pos + 1, NextDepth(s[pos], depth), k, next);
    }
  }

  lemma {:induction false} EmptyTabIsNested(s: seq<Token>, stack: seq<Token>, open: nat, close: nat)
    requires Tally(s) == Some(0) && HoldsNothing(s, open, close)
    ensures InSurvey(s[..open], stack)
    decreases |s|
  {
    hide SeeTab, StackAfter, Tally, EndFrom, InSurvey, IsSurvey;
    NotTheNextTab(s, open, close);
    var Tab(o, end, full) := SeeTab(s, 0);
    if open < end {
      InsideTab(s, o, end, open, stack);
    } else {
      EmptyTabIsNested(s[end..], StackAfter(s[..end], stack), open - end, close - end);
      InSurveyLater(s, end, open, stack);
    }
  }

  lemma InSurveyLater(s: seq<Token>, end: nat, open: nat, stack: seq<Token>)
    requires end <= open <= |s| && InSurvey(s[end..][..open - end], StackAfter(s[..end], stack))
    ensures InSurvey(s[..open], stack)
  {
    PlacedConcat(s[..end], s[end..open], stack);
    assert s[..open] == s[..end] + s[end..open] && s[end..][..open - end] == s[end..open];
  }

  lemma NotTheNextTab(s: seq<Token>, open: nat, close: nat)
    requires Tally(s) == Some(0) && HoldsNothing(s, open, close)
    ensures SeeTab(s, 0).Tab? && SeeTab(s, 0).open < open && IsSurvey(s[SeeTab(s, 0).open])
    ensures BlockEnd(s, SeeTab(s, 0).open) == Some(SeeTab(s, 0).end) && Tally(s[SeeTab(s, 0).end..]) == Some(0)
  {
    hide EndFrom, IsContent;
    if SeeTab(s, 0).Tab? && SeeTab(s, 0).open == open { HoldsNothingIsEmpty(s, open, close); }
  }

  lemma HoldsNothingIsEmpty(s: seq<Token>, open: nat, close: nat)
    requires HoldsNothing(s, open, close)
    ensures BlockEnd(s, open) == Some(close + 1) && !HasContent(Body(s, open, close + 1))
  {
    EndSkips(s, open + 1, 1, close);
  }

  lemma InsideTab(s: seq<Token>, o: nat, end: nat, open: nat, stack: seq<Token>)
    requires o < open < end <= |s| && IsSurvey(s[o]) && BlockEnd(s, o) == Some(end)
    ensures InSurvey(s[..open], stack)
  {
    var st := StackAfter(s[..o], stack);
    StillOpen(s, o + 1, 1, open, st + [s[o]]);
    PlacedConcat(s[..o], s[o..open], stack);
    assert s[..open] == s[..o] + s[o..open] && s[o..open][1..] == s[o + 1..open];
    assert StackAfter(s[..open], stack)[|st|] == s[o];
  }

  /** A Survey tab that is empty and not inside another one is gone. */
  lemma EmptyTabsLeftAreNested(s: seq<Token>, open: nat, close: nat)
    requires Strip(s).Done? && HoldsNothing(Strip(s).tokens, open, close)
    ensures InSurvey(Strip(s).tokens[..open], [])
  {
    StrippedHasNone(s);
    EmptyTabIsNested(Strip(s).tokens, [], open, close);
  }

  /** A second pass changes nothing. */
  lemma StripIsIdempotent(s: seq<Token>)
    ensures var (t, _) := StripEmptySurveyRootTabs(s); StripEmptySurveyRootTabs(t) == (t, false)
  {
    hide SeeTab;
    var t := StripEmptySurveyRootTabs(s).0;
    ReportsIffTally(s);
    if Strip(s).Done? {
      RemovedCounts(s);
      StrippedHasNone(s);
    }
    ReportsIffTally(t);
  }

  // ---- tags the pass does not look at ----

  /** t is s with n put in before position p. */
  ghost predicate Inserted(s: seq<Token>, p: nat, n: seq<Token>, t: seq<Token>) {
    && p <= |s| && |t| == |s| + |n|
    && (forall j :: 0 <= j < p ==> t[j] == s[j])
    && (forall j :: p <= j < p + |n| ==> t[j] == n[j - p])
    && (forall j :: p + |n| <= j < |t| ==> t[j] == s[j - |n|])
  }

  function Insert(s: seq<Token>, p: nat, n: seq<Token>): (t: seq<Token>)
    requires p <= |s|
    ensures Inserted(s, p, n, t)
  {
    s[..p] + n + s[p..]
  }

  lemma InsertedMiddle(s: seq<Token>, p: nat, n: seq<Token>, t: seq<Token>)
    requires Inserted(s, p, n, t) && Neutral(n)
    ensures p + |n| <= |t| && forall j :: p <= j < p + |n| ==> !IsOpen(t[j]) && !IsClose(t[j])
  {
  }

  lemma InsertedTail(s: seq<Token>, p: nat, n: seq<Token>, t: seq<Token>)
    requires Inserted(s, p, n, t)
    ensures p <= |s| && |t| == |s| + |n| && forall j :: p <= j < |s| ==> t[j + |n|] == s[j]
  {
  }

  /** At the place itself the counter walks over the neutral tokens. */
  lemma EndOverInsert(s: seq<Token>, p: nat, n: seq<Token>, t: seq<Token>, depth: nat)
    requires p <= |s| && p <= |t| && Inserted(s, p, n, t) && Neutral(n) && depth > 0
    ensures EndFrom(t, p, depth) == Shift(EndFrom(s, p, depth), |n|)
  {
    hide Inserted, Neutral;
    InsertedMiddle(s, p, n, t);
    InsertedTail(s, p, n, t);
    EndSkips(t, p, depth, p + |n|);
    EndShifts(s, t, p, |n|, depth);
  }

  /** Neutral tokens put in before position p leave the depth counter alone. */
  lemma {:induction false} EndPastInsert(s: seq<Token>, p: nat, n: seq<Token>, t: seq<Token>, pos: nat, depth: nat)
    requires Inserted(s, p, n, t) && Neutral(n) && pos <= p && depth > 0
    ensures var e := EndFrom(s, pos, depth);
            EndFrom(t, pos, depth) == if e.Some? && e.value <= p then e else Shift(e, |n|)
    decreases |s| - pos
  {
    if pos == p {
      EndOverInsert(s, p, n, t, depth);
    } else {
      InsertedAt(s, p, n, t, pos);
      hide Inserted, Neutral;
      var next := NextDepth(s[pos], depth);
      if next > 0 { EndPastInsert(s, p, n, t, pos + 1, next); }
    }
  }

  lemma InsertedAt(s: seq<Token>, p: nat, n: seq<Token>, t: seq<Token>, j: nat)
    requires Inserted(s, p, n, t) && j < p
    ensures j < |s| && |t| == |s| + |n| && t[j] == s[j]
  {
  }

  lemma BodyBeforeInsert(s: seq<Token>, p: nat, n: seq<Token>, t: seq<Token>, open: nat, end: nat)
    requires Inserted(s, p, n, t) && open + 1 < end <= p
    ensures Body(t, open, end) == Body(s, open, end)
  {
  }

  lemma BodyAroundInsert(s: seq<Token>, p: nat, n: seq<Token>, t: seq<Token>, open: nat, end: nat)
    requires Inserted(s, p, n, t) && Neutral(n) && open + 1 < end <= |s| && open < p < end
    ensures HasContent(Body(t, open, end + |n|)) <==> HasContent(Body(s, open, end))
  {
    var b, b' := Body(s, open, end), Body(t, open, end + |n|);
    if i :| 0 <= i < |b| && IsContent(b[i]) {
      var k := if open + 1 + i < p then i else i + |n|;
      assert b'[k] == t[open + 1 + k] == s[open + 1 + i];
    }
    if i :| 0 <= i < |b'| && IsContent(b'[i]) {
      assert b'[i] == t[open + 1 + i];
      var k := if open + 1 + i < p then i else i - |n|;
      assert b[k] == s[open + 1 + k] == t[open + 1 + i];
    }
  }

  /** Where the next tab is once neutral tokens are put in. */
  lemma SeePastInsert(s: seq<Token>, p: nat, n: seq<Token>, t: seq<Token>)
    requires Inserted(s, p, n, t) && Neutral(n)
    requires Seek(s, 0, SurveyTag).Some? && Seek(s, 0, SurveyTag).value < p
    ensures var seen := SeeTab(s, 0);
            SeeTab(t, 0)
            == if seen.Tab? && p < seen.end then seen.(end := seen.end + |n|) else seen
  {
    hide HasContent, Body, EndFrom;
    var open := Seek(s, 0, SurveyTag).value;
    SeekIs(t, 0, SurveyTag, open);
    EndPastInsert(s, p, n, t, open + 1, 1);
    var end := BlockEnd(s, open);
    if end.Some? {
      if end.value <= p { BodyBeforeInsert(s, p, n, t, open, end.value); }
      else { BodyAroundInsert(s, p, n, t, open, end.value); }
    }
  }

  lemma RestPastInsert(s: seq<Token>, p: nat, n: seq<Token>, end: nat)
    requires p <= |s| && end <= |s|
    ensures p < end ==> Insert(s, p, n)[end + |n|..] == s[end..]
    ensures end <= p ==> Insert(s, p, n)[end..] == Insert(s[end..], p - end, n)
  {
  }

  lemma InsertParts(s: seq<Token>, p: nat, n: seq<Token>)
    requires p <= |s| && Neutral(n) && forall j :: 0 <= j < p ==> !IsSurvey(s[j])
    ensures Insert(s, p, n) == (s[..p] + n) + s[p..] && s == s[..p] + s[p..]
    ensures forall j :: 0 <= j < |s[..p] + n| ==> !IsSurvey((s[..p] + n)[j])
  {
  }

  /** Put in at or before the first tab's opening tag, they stand in a prefix
      that holds no tab. */
  lemma InsertInPrefix(s: seq<Token>, p: nat, n: seq<Token>)
    requires p <= |s| && Neutral(n) && forall j :: 0 <= j < p ==> !IsSurvey(s[j])
    ensures Tally(Insert(s, p, n)) == Tally(s)
  {
    hide Tally, SeeTab, Insert, Inserted, Neutral, IsSurvey;
    InsertParts(s, p, n);
    TallyPrefix(s[..p], s[p..]);
    TallyPrefix(s[..p] + n, s[p..]);
  }

  /** Tokens the pass does not look at can stand anywhere without changing
      how many tabs it removes. */
  lemma {:induction false} InsertKeepsTally(s: seq<Token>, p: nat, n: seq<Token>)
    requires p <= |s| && Neutral(n)
    ensures Tally(Insert(s, p, n)) == Tally(s)
    decreases |s|
  {
    hide SeeTab, Insert, Inserted, Neutral;
    var open := Seek(s, 0, SurveyTag);
    if open.None? || p <= open.value {
      InsertInPrefix(s, p, n);
    } else {
      SeePastInsert(s, p, n, Insert(s, p, n));
      var seen := SeeTab(s, 0);
      if seen.Tab? {
        RestPastInsert(s, p, n, seen.end);
        if seen.end <= p { InsertKeepsTally(s[seen.end..], p - seen.end, n); }
      }
    }
  }
}
