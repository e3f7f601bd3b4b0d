/** Removing the empty "Survey" root tabs from a project's layer forms. */
module SurveyTabs {
  import opened Text
  import opened QgsTokens

  // ---- the end of a container ----

  function Shift(r: Option<nat>, offset: nat): Option<nat> {
    if r.None? then None else Some(r.value + offset)
  }

  function NextDepth(t: Token, depth: nat): nat
    requires depth > 0
  {
    if IsOpen(t) then depth + 1 else if IsClose(t) then depth - 1 else depth
  }

  /** One token at a time: the position after the tag that brings the depth
      down to zero. */
  function EndFrom(s: seq<Token>, pos: nat, depth: nat): (r: Option<nat>)
    requires pos <= |s|
    ensures r.Some? ==> pos <= r.value <= |s| && (depth > 0 ==> r.value > pos && IsClose(s[r.value - 1]))
    decreases |s| - pos
  {
    if depth == 0 then Some(pos)
    else if pos == |s| then None
    else EndFrom(s, pos + 1, NextDepth(s[pos], depth))
  }

  /** The counter does not care where in a document its tokens stand. */
  lemma {:induction false} EndShifts(s: seq<Token>, t: seq<Token>, pos: nat, offset: nat, depth: nat)
    requires pos <= |s| && |t| == |s| + offset
    requires forall j :: pos <= j < |s| ==> t[j + offset] == s[j]
    ensures EndFrom(t, pos + offset, depth) == Shift(EndFrom(s, pos, depth), offset)
    decreases |s| - pos
  {
    if depth > 0 && pos < |s| { EndShifts(s, t, pos + 1, offset, NextDepth(s[pos], depth)); }
  }

  lemma {:induction false} EndSkips(s: seq<Token>, pos: nat, depth: nat, to: nat)
    requires pos <= to <= |s| && depth > 0
    requires forall j :: pos <= j < to ==> !IsOpen(s[j]) && !IsClose(s[j])
    ensures EndFrom(s, pos, depth) == EndFrom(s, to, depth)
    decreases |s| - pos
  {
    if pos < to { EndSkips(s, pos + 1, depth, to); }
  }

  lemma {:induction false} NoCloseNoEnd(s: seq<Token>, pos: nat, depth: nat)
    requires pos <= |s| && depth > 0 && forall j :: pos <= j < |s| ==> !IsClose(s[j])
    ensures EndFrom(s, pos, depth).None?
    decreases |s| - pos
  {
    if pos < |s| { NoCloseNoEnd(s, pos + 1, NextDepth(s[pos], depth)); }
  }

  /** A smaller depth is closed no later. */
  lemma {:induction false} EndLower(s: seq<Token>, pos: nat, depth: nat, lower: nat)
    requires pos <= |s| && lower <= depth && EndFrom(s, pos, depth).Some?
    ensures EndFrom(s, pos, lower).Some?
    decreases |s| - pos
  {
    if lower > 0 { EndLower(s, pos + 1, NextDepth(s[pos], depth), NextDepth(s[pos], lower)); }
  }

  /** Inside a closed container every opened container is closed. */
  lemma {:induction false} InnerEnds(s: seq<Token>, pos: nat, depth: nat, j: nat)
    requires pos <= |s| && EndFrom(s, pos, depth).Some?
    requires pos <= j < EndFrom(s, pos, depth).value && IsOpen(s[j])
    ensures EndFrom(s, j + 1, 1).Some?
    decreases |s| - pos
  {
    if j == pos {
      EndLower(s, pos + 1, depth + 1, 1);
    } else {
      InnerEnds(s, pos + 1, NextDepth(s[pos], depth), j);
    }
  }

  /** The search-based finder: jump to the next closing tag, or to an opening
      tag before it, adjusting the depth at each. It finds what counting one
      token at a time finds. */
  method FindEditorContainerEnd(data: seq<Token>, openEnd: nat) returns (end: Option<nat>)
    requires openEnd <= |data|
    ensures end == EndFrom(data, openEnd, 1)
  {
    var depth: nat := 1;
    var scanPos := openEnd;
    while depth > 0
      invariant openEnd <= scanPos <= |data|
      invariant EndFrom(data, scanPos, depth) == EndFrom(data, openEnd, 1)
      decreases |data| - scanPos
    {
      var nextClose := Seek(data, scanPos, CloseTag);
      if nextClose.None? {
        NoCloseNoEnd(data, scanPos, depth);
        return None;
      }
      var nextOpen := SeekBefore(data, scanPos, nextClose.value, OpenTag);
      if nextOpen.Some? {
        EndSkips(data, scanPos, depth, nextOpen.value);
        depth := depth + 1;
        scanPos := nextOpen.value + 1;
        continue;
      }
      EndSkips(data, scanPos, depth, nextClose.value);
      depth := depth - 1;
      scanPos := nextClose.value + 1;
    }
    return Some(scanPos);
  }

  // ---- the pass ----

  predicate HasContent(body: seq<Token>) {
    exists i :: 0 <= i < |body| && IsContent(body[i])
  }

  /** Spaces, then at most one line break. */
  function SkipBlanks(s: seq<Token>): (n: nat)
    ensures n <= |s|
  {
    if s == [] then 0
    else if s[0].Newline? then 1
    else if s[0].BlankText? then 1 + SkipBlanks(s[1..])
    else 0
  }

  datatype Stripped = Aborted | Done(tokens: seq<Token>, removed: nat)

  function Prepend(pre: seq<Token>, removed: nat, r: Stripped): Stripped {
    if r.Aborted? then Aborted else Done(pre + r.tokens, removed + r.removed)
  }

  /** The position after the container opened at `open`. */
  function BlockEnd(s: seq<Token>, open: nat): (r: Option<nat>)
    requires open < |s|
    ensures r.Some? ==> open + 1 < r.value <= |s| && IsClose(s[r.value - 1])
  {
    EndFrom(s, open + 1, 1)
  }

  function Body(s: seq<Token>, open: nat, end: nat): seq<Token>
    requires open + 1 < end <= |s|
  {
    s[open + 1..end - 1]
  }

  /** The next Survey tab: none, one that is never closed, or one from `open`
      to `end`, `full` when it has content. */
  datatype Seen = NoMore | Never | Tab(open: nat, end: nat, full: bool)

  function SeeTab(s: seq<Token>, pos: nat): (r: Seen)
    requires pos <= |s|
    ensures r.Tab? ==> pos <= r.open && r.open + 1 < r.end <= |s|
  {
    var open := Seek(s, pos, SurveyTag);
    if open.None? then NoMore
    else
      var end := BlockEnd(s, open.value);
      if end.None? then Never else Tab(open.value, end.value, HasContent(Body(s, open.value, end.value)))
  }

  /** What the pass does next: a tab with content is kept up to `end`, an
      empty one is dropped from `open` with the blanks after it. */
  datatype NextTab = NoTab | Unclosed | Kept(end: nat) | Dropped(open: nat, end: nat, after: nat)

  function FindTab(s: seq<Token>, pos: nat): (r: NextTab)
    requires pos <= |s|
    ensures r.Kept? ==> pos < r.end <= |s|
    ensures r.Dropped? ==> pos <= r.open && r.open + 1 < r.end <= r.after <= |s|
  {
    match SeeTab(s, pos)
    case NoMore => NoTab
    case Never => Unclosed
    case Tab(open, end, full) =>
      if full then Kept(end) else Dropped(open, end, end + SkipBlanks(s[end..]))
  }

  /** The pass on a document suffix: keep a Survey tab with content and what
      precedes it, drop an empty one with the blanks after it, give up at one
      that is never closed. */
  function Strip(s: seq<Token>): Stripped
    decreases |s|
  {
    match FindTab(s, 0)
    case NoTab => Done(s, 0)
    case Unclosed => Aborted
    case Kept(end) => Prepend(s[..end], 0, Strip(s[end..]))
    case Dropped(open, end, after) => Prepend(s[..open], 1, Strip(s[after..]))
  }

  function StripEmptySurveyRootTabs(s: seq<Token>): (seq<Token>, bool) {
    var r := Strip(s);
    if r.Aborted? || r.removed == 0 then (s, false) else (r.tokens, true)
  }

  function Join(pieces: seq<seq<Token>>): seq<Token> {
    if pieces == [] then [] else Join(pieces[..|pieces| - 1]) + pieces[|pieces| - 1]
  }

  lemma JoinSnoc(pieces: seq<seq<Token>>, piece: seq<Token>)
    ensures Join(pieces + [piece]) == Join(pieces) + piece
  {
    assert (pieces + [piece])[..|pieces|] == pieces;
  }

  lemma PrependTwice(pieces: seq<seq<Token>>, removed: nat, piece: seq<Token>, more: nat, r: Stripped)
    ensures Prepend(Join(pieces), removed, Prepend(piece, more, r))
            == Prepend(Join(pieces + [piece]), removed + more, r)
  {
    JoinSnoc(pieces, piece);
    if r.Done? { assert Join(pieces) + (piece + r.tokens) == (Join(pieces) + piece) + r.tokens; }
  }

  /** The pass from a position on. */
  function StripFrom(s: seq<Token>, pos: nat): Stripped
    requires pos <= |s|
    decreases |s| - pos
  {
    match FindTab(s, pos)
    case NoTab => Done(s[pos..], 0)
    case Unclosed => Aborted
    case Kept(end) => Prepend(s[pos..end], 0, StripFrom(s, end))
    case Dropped(open, end, after) => Prepend(s[pos..open], 1, StripFrom(s, after))
  }

  lemma SeekSuffix(s: seq<Token>, pos: nat)
    requires pos <= |s|
    ensures Shift(Seek(s[pos..], 0, SurveyTag), pos) == Seek(s, pos, SurveyTag)
  {
    var r := Seek(s, pos, SurveyTag);
    if r.Some? {
      SeekIs(s[pos..], 0, SurveyTag, r.value - pos);
    } else {
      assert forall j :: 0 <= j < |s[pos..]| ==> !IsSurvey(s[pos..][j]);
    }
  }

  lemma BlockSuffix(s: seq<Token>, pos: nat, open: nat)
    requires pos <= open < |s|
    ensures Shift(BlockEnd(s[pos..], open - pos), pos) == BlockEnd(s, open)
    ensures var end := BlockEnd(s, open);
            end.Some? ==> Body(s[pos..], open - pos, end.value - pos) == Body(s, open, end.value)
  {
    EndShifts(s[pos..], s, open - pos + 1, pos, 1);
  }

  function ShiftSeen(r: Seen, offset: nat): Seen {
    match r
    case Tab(open, end, full) => Tab(open + offset, end + offset, full)
    case _ => r
  }

  lemma SeeTabSuffix(s: seq<Token>, pos: nat)
    requires pos <= |s|
    ensures ShiftSeen(SeeTab(s[pos..], 0), pos) == SeeTab(s, pos)
  {
    SeekSuffix(s, pos);
    var open := Seek(s, pos, SurveyTag);
    if open.Some? { BlockSuffix(s, pos, open.value); }
  }

  function ShiftTab(r: NextTab, offset: nat): NextTab {
    match r
    case Kept(end) => Kept(end + offset)
    case Dropped(open, end, after) => Dropped(open + offset, end + offset, after + offset)
    case _ => r
  }

  lemma FindTabSuffix(s: seq<Token>, pos: nat)
    requires pos <= |s|
    ensures ShiftTab(FindTab(s[pos..], 0), pos) == FindTab(s, pos)
  {
    hide SeeTab;
    SeeTabSuffix(s, pos);
    var seen := SeeTab(s, pos);
    if seen.Tab? { assert s[pos..][seen.end - pos..] == s[seen.end..]; }
  }

  lemma {:induction false} StripFromIsStrip(s: seq<Token>, pos: nat)
    requires pos <= |s|
    ensures StripFrom(s, pos) == Strip(s[pos..])
    decreases |s| - pos
  {
    hide FindTab, Prepend;
    var t := s[pos..];
    FindTabSuffix(s, pos);
    match FindTab(s, pos)
    case NoTab =>
    case Unclosed =>
    case Kept(end) =>
      StripFromIsStrip(s, end);
      SliceOfSuffix(s, pos, end);
      assert Strip(t) == Prepend(t[..end - pos], 0, Strip(t[end - pos..]));
    case Dropped(open, end, after) =>
      StripFromIsStrip(s, after);
      SliceOfSuffix(s, pos, open);
      SliceOfSuffix(s, pos, after);
      assert Strip(t) == Prepend(t[..open - pos], 1, Strip(t[after - pos..]));
  }

  lemma SliceOfSuffix(s: seq<Token>, pos: nat, to: nat)
    requires pos <= to <= |s|
    ensures s[pos..][..to - pos] == s[pos..to] && s[pos..][to - pos..] == s[to..]
  {
  }

  /** The searches of one round of the loop. */
  method FindNextTab(data: seq<Token>, pos: nat) returns (tab: NextTab)
    requires pos <= |data|
    ensures tab == FindTab(data, pos)
  {
    var open := Seek(data, pos, SurveyTag);
    if open.None? { return NoTab; }
    var blockEnd := FindEditorContainerEnd(data, open.value + 1);
    if blockEnd.None? { return Unclosed; }
    if HasContent(Body(data, open.value, blockEnd.value)) { return Kept(blockEnd.value); }
    return Dropped(open.value, blockEnd.value, blockEnd.value + SkipBlanks(data[blockEnd.value..]));
  }

  /** The loop over `pos`, `pieces` and `removed`. */
  method StripEmptySurveyTabs(data: seq<Token>) returns (result: seq<Token>, changed: bool)
    ensures (result, changed) == StripEmptySurveyRootTabs(data)
  {
    hide FindTab;
    var pieces: seq<seq<Token>> := [];
    var pos, removed: nat := 0, 0;
    ghost var answer := StripFrom(data, 0);
    StripFromIsStrip(data, 0);
    assert data[0..] == data;
    PrependNothing(answer);
    while true
      invariant pos <= |data|
      invariant answer == Prepend(Join(pieces), removed, StripFrom(data, pos))
      decreases |data| - pos
    {
      var tab := FindNextTab(data, pos);
      match tab {
        case NoTab => break;
        case Unclosed => return data, false;
        case Kept(end) =>
          PrependTwice(pieces, removed, data[pos..end], 0, StripFrom(data, end));
          pieces := pieces + [data[pos..end]];
          pos := end;
        case Dropped(open, _, after) =>
          PrependTwice(pieces, removed, data[pos..open], 1, StripFrom(data, after));
          pieces := pieces + [data[pos..open]];
          pos := after;
          removed := removed + 1;
      }
    }
    if removed == 0 { return data, false; }
    JoinSnoc(pieces, data[pos..]);
    pieces := pieces + [data[pos..]];
    return Join(pieces), true;
  }

  lemma PrependNothing(r: Stripped)
    ensures Prepend([], 0, r) == r
  {
    if r.Done? { assert [] + r.tokens == r.tokens; }
  }
}
