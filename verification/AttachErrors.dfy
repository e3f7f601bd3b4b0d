/** Which attach failures are worth a retry: a walk along Python's exception
    chain, whose cause and context links may form a cycle. */
module AttachErrors {
  import opened Text
  import opened Wording

  /** One exception object. `isException` is false for objects outside the
      `Exception` hierarchy, such as a cancellation. */
  datatype ExcNode = ExcNode(
    isException: bool,
    isTimeout: bool,
    httpDetail: Option<string>,
    text: string,
    cause: Option<nat>,
    context: Option<nat>)

  /** Exception objects by identity. */
  type ExcGraph = map<nat, ExcNode>

  const FRAGMENTS: seq<string> := [
    "name or service not known",
    "temporary failure in name resolution",
    "failed to resolve",
    "dns",
    "timed out",
    "timeout",
    "connection reset",
    "connection refused",
    "connection aborted",
    "temporarily unavailable",
    "temporary failure",
    "network is unreachable",
    "protocolerror"
  ]

  predicate Occurs(part: string, text: string) {
    exists i :: 0 <= i <= |text| - |part| && text[i..][..|part|] == part
  }

  predicate ContainsFragment(text: string) {
    exists k :: 0 <= k < |FRAGMENTS| && Occurs(FRAGMENTS[k], Lower(text))
  }

  predicate LooksTransient(n: ExcNode) {
    ContainsFragment(n.text) || (n.httpDetail.Some? && ContainsFragment(n.httpDetail.value))
  }

  /** "Cause, else context", when that is an `Exception`. */
  function NextException(g: ExcGraph, id: nat): (next: Option<nat>)
    requires id in g
    ensures next.Some? ==> next.value in g
  {
    var linked := if g[id].cause.Some? then g[id].cause else g[id].context;
    if linked.Some? && linked.value in g && g[linked.value].isException then linked else None
  }

  /** The k-th exception along the chain, if the chain is that long. */
  ghost function Chain(g: ExcGraph, top: nat, k: nat): (id: Option<nat>)
    requires top in g
    ensures id.Some? ==> id.value in g
  {
    if k == 0 then Some(top)
    else
      var prev := Chain(g, top, k - 1);
      if prev.Some? then NextException(g, prev.value) else None
  }

  /** The top exception is a timeout, or some exception along the chain
      mentions a transient failure. */
  ghost predicate Transient(g: ExcGraph, top: nat)
    requires top in g
  {
    g[top].isTimeout ||
    exists k: nat :: Chain(g, top, k).Some? && LooksTransient(g[Chain(g, top, k).value])
  }

  lemma {:induction false} ChainEnds(g: ExcGraph, top: nat, k: nat, m: nat)
    requires top in g && k <= m && Chain(g, top, k).None?
    ensures Chain(g, top, m).None?
    decreases m
  {
    if k < m { ChainEnds(g, top, k, m - 1); }
  }

  /** Once the chain comes back to an exception it only repeats itself. */
  lemma {:induction false} ChainRepeats(g: ExcGraph, top: nat, i: nat, k: nat, m: nat) returns (j: nat)
    requires top in g && i < k <= m
    requires Chain(g, top, i) == Chain(g, top, k)
    ensures j < k && Chain(g, top, m) == Chain(g, top, j)
    decreases m
  {
    if m == k {
      j := i;
    } else {
      var before := ChainRepeats(g, top, i, k, m - 1);
      j := if before + 1 == k then i else before + 1;
    }
  }

  // ---- the same told by the links and words themselves ----

  /** From a the chain goes on to b: to its cause if it has one and to its
      context otherwise, when that is an `Exception`. */
  ghost predicate Linked(g: ExcGraph, a: nat, b: nat) {
    && a in g && b in g && g[b].isException
    && (g[a].cause == Some(b) || (g[a].cause == None && g[a].context == Some(b)))
  }

  ghost predicate IsPath(g: ExcGraph, p: seq<nat>) {
    && |p| > 0 && p[0] in g
    && forall i :: 0 <= i < |p| - 1 ==> Linked(g, p[i], p[i + 1])
  }

  ghost predicate SoundsTransient(text: string) {
    || Mentions(text, "name or service not known")
    || Mentions(text, "temporary failure in name resolution")
    || Mentions(text, "failed to resolve")
    || Mentions(text, "dns")
    || Mentions(text, "timed out")
    || Mentions(text, "timeout")
    || Mentions(text, "connection reset")
    || Mentions(text, "connection refused")
    || Mentions(text, "connection aborted")
    || Mentions(text, "temporarily unavailable")
    || Mentions(text, "temporary failure")
    || Mentions(text, "network is unreachable")
    || Mentions(text, "protocolerror")
  }

  ghost predicate IsTransient(n: ExcNode) {
    SoundsTransient(n.text) || (n.httpDetail.Some? && SoundsTransient(n.httpDetail.value))
  }

  /** The top exception is a timeout, or a path of links leads from it to one
      whose text, or HTTP detail, sounds transient in any case. */
  ghost predicate ReachesTransient(g: ExcGraph, top: nat)
    requires top in g
  {
    g[top].isTimeout ||
    exists p: seq<nat> :: IsPath(g, p) && p[0] == top && p[|p| - 1] in g && IsTransient(g[p[|p| - 1]])
  }

  lemma OccursIs(part: string, text: string)
    requires NoCapitals(part)
    ensures Occurs(part, Lower(text)) <==> Mentions(text, part)
  {
    var low, n := Lower(text), |part|;
    if i :| 0 <= i <= |low| - n && low[i..][..n] == part {
      assert Lower(text[i..i + n]) == low[i..][..n];
      LowerIs(text[i..i + n], part);
    }
    if i: nat, j: nat :| i <= j <= |text| && Says(text[i..j], part) {
      LowerIs(text[i..j], part);
      assert Lower(text[i..j]) == low[i..][..n];
    }
  }

  lemma FragmentsAre(text: string)
    ensures ContainsFragment(text) <==> SoundsTransient(text)
  {
    hide Lower, Occurs, Mentions;
    forall k | 0 <= k < |FRAGMENTS|
      ensures Occurs(FRAGMENTS[k], Lower(text)) <==> Mentions(text, FRAGMENTS[k])
    {
      FragmentHasNoCapitals(k);
      OccursIs(FRAGMENTS[k], text);
    }
    if k :| 0 <= k < |FRAGMENTS| && Mentions(text, FRAGMENTS[k]) {
      assert || k == 0 || k == 1 || k == 2 || k == 3 || k == 4 || k == 5 || k == 6
             || k == 7 || k == 8 || k == 9 || k == 10 || k == 11 || k == 12;
    }
    assert FRAGMENTS[0] == "name or service not known" && FRAGMENTS[1] == "temporary failure in name resolution";
    assert FRAGMENTS[2] == "failed to resolve" && FRAGMENTS[3] == "dns" && FRAGMENTS[4] == "timed out";
    assert FRAGMENTS[5] == "timeout" && FRAGMENTS[6] == "connection reset" && FRAGMENTS[7] == "connection refused";
    assert FRAGMENTS[8] == "connection aborted" && FRAGMENTS[9] == "temporarily unavailable";
    assert FRAGMENTS[10] == "temporary failure" && FRAGMENTS[11] == "network is unreachable";
    assert FRAGMENTS[12] == "protocolerror";
  }

  lemma FragmentHasNoCapitals(k: nat)
    requires k < |FRAGMENTS|
    ensures NoCapitals(FRAGMENTS[k])
  {
    hide NoCapitals;
    if k < 3 { NamesHaveNoCapitals(k); } else if k < 9 { TimesHaveNoCapitals(k); } else { RestHasNoCapitals(k); }
  }

  lemma NamesHaveNoCapitals(k: nat)
    requires k < 3
    ensures NoCapitals(FRAGMENTS[k])
  {
  }

  lemma TimesHaveNoCapitals(k: nat)
    requires 3 <= k < 9
    ensures NoCapitals(FRAGMENTS[k])
  {
  }

  lemma RestHasNoCapitals(k: nat)
    requires 9 <= k < |FRAGMENTS|
    ensures NoCapitals(FRAGMENTS[k])
  {
  }

  lemma {:induction false} ChainOfPath(g: ExcGraph, p: seq<nat>)
    requires IsPath(g, p)
    ensures Chain(g, p[0], |p| - 1) == Some(p[|p| - 1])
    decreases |p|
  {
    if |p| > 1 {
      var init := p[..|p| - 1];
      forall i | 0 <= i < |init| - 1
        ensures Linked(g, init[i], init[i + 1])
      {
        assert Linked(g, p[i], p[i + 1]);
      }
      ChainOfPath(g, init);
      assert Linked(g, p[|p| - 2], p[|p| - 2 + 1]);
    }
  }

  lemma {:induction false} PathOfChain(g: ExcGraph, top: nat, k: nat) returns (p: seq<nat>)
    requires top in g && Chain(g, top, k).Some?
    ensures IsPath(g, p) && p[0] == top && p[|p| - 1] == Chain(g, top, k).value
    decreases k
  {
    if k == 0 {
      p := [top];
    } else {
      var init := PathOfChain(g, top, k - 1);
      p := init + [Chain(g, top, k).value];
      assert Linked(g, init[|init| - 1], p[|p| - 1]);
    }
  }

  /** The walk along the chain looks for exactly what the links and words say. */
  lemma TransientIsReached(g: ExcGraph, top: nat)
    requires top in g
    ensures Transient(g, top) <==> ReachesTransient(g, top)
  {
    hide ContainsFragment, SoundsTransient;
    forall text: string ensures ContainsFragment(text) <==> SoundsTransient(text) {
      FragmentsAre(text);
    }
    if k: nat :| Chain(g, top, k).Some? && LooksTransient(g[Chain(g, top, k).value]) {
      var p := PathOfChain(g, top, k);
      assert IsTransient(g[p[|p| - 1]]);
    }
    if p: seq<nat> :| IsPath(g, p) && p[0] == top && p[|p| - 1] in g && IsTransient(g[p[|p| - 1]]) {
      ChainOfPath(g, p);
      assert LooksTransient(g[Chain(g, top, |p| - 1).value]);
    }
  }

  /** The walk visits each exception once, so it ends on cyclic chains too,
      and misses none. */
  method IsTransientAttachException(g: ExcGraph, top: nat) returns (transient: bool)
    requires top in g
    ensures transient <==> Transient(g, top)
    ensures transient <==> ReachesTransient(g, top)
  {
    hide ReachesTransient, ContainsFragment, LooksTransient;
    TransientIsReached(g, top);
    if g[top].isTimeout { return true; }
    var current := Some(top);
    var visited: set<nat> := {};
    ghost var k: nat := 0;
    while current.Some? && current.value !in visited
      invariant current == Chain(g, top, k)
      invariant visited <= g.Keys
      invariant forall id :: id in visited ==> exists j: nat :: j < k && Chain(g, top, j) == Some(id)
      invariant forall j: nat :: j < k ==>
        Chain(g, top, j).Some? && !LooksTransient(g[Chain(g, top, j).value])
      decreases g.Keys - visited
    {
      visited := visited + {current.value};
      if LooksTransient(g[current.value]) { return true; }
      assert Chain(g, top, k + 1) == NextException(g, current.value);
      current := NextException(g, current.value);
      k := k + 1;
    }
    forall m: nat | Chain(g, top, m).Some?
      ensures !LooksTransient(g[Chain(g, top, m).value])
    {
      if k <= m {
        if current.None? {
          ChainEnds(g, top, k, m);
        } else {
          var i: nat :| i < k && Chain(g, top, i) == current;
          var j := ChainRepeats(g, top, i, k, m);
        }
      }
    }
    return false;
  }
}
