/**
 Breadth-first search from `Start` to `Goal` over the puzzle's states, with a FIFO
 frontier, an explored set and a parent map kept as fields of the searching object.
 */
module Search {
  import opened Puzzle

  /** No state occurs twice in `s`. */
  predicate NoDuplicates(s: seq<State>)
  {
    |s| == 0 || (s[0] !in s[1..] && NoDuplicates(s[1..]))
  }

  /** Free of repeats means that any two positions hold different states. */
  lemma {:induction false} NoDuplicatesDistinct(s: seq<State>)
    ensures NoDuplicates(s) <==> forall i, j :: 0 <= i < j < |s| ==> s[i] != s[j]
  {
    if |s| > 0 {
      NoDuplicatesDistinct(s[1..]);
      if NoDuplicates(s) {
        forall i, j | 0 <= i < j < |s|
          ensures s[i] != s[j]
        {
          if i == 0 {
            assert s[j] == s[1..][j - 1];
          } else {
            assert s[i] == s[1..][i - 1] && s[j] == s[1..][j - 1];
          }
        }
      } else if s[0] in s[1..] {
        var j :| 0 <= j < |s[1..]| && s[1..][j] == s[0];
        assert s[j + 1] == s[0];
      } else {
        var i, j :| 0 <= i < j < |s[1..]| && s[1..][i] == s[1..][j];
        assert s[i + 1] == s[j + 1];
      }
    }
  }

  /** Appending a state not yet present keeps a sequence free of repeats. */
  lemma {:induction false} AppendKeepsNoDuplicates(s: seq<State>, x: State)
    requires NoDuplicates(s) && x !in s
    ensures NoDuplicates(s + [x])
  {
    if |s| > 0 {
      assert (s + [x])[1..] == s[1..] + [x];
      AppendKeepsNoDuplicates(s[1..], x);
    }
  }

  /** List removal: the elements of `xs` equal to none of `ys`, order kept. */
  function RemoveAll(xs: seq<State>, ys: seq<State>): (r: seq<State>)
    ensures |r| <= |xs|
    ensures forall x :: x in r <==> x in xs && x !in ys
  {
    if xs == [] then []
    else if xs[0] in ys then RemoveAll(xs[1..], ys)
    else [xs[0]] + RemoveAll(xs[1..], ys)
  }

  /** Removing a list that holds exactly the illegal children is filtering by legality. */
  lemma {:induction false} RemoveIllegalIsKeepLegal(xs: seq<State>, removed: seq<State>)
    requires forall x :: x in xs ==> (x in removed <==> Illegal(x))
    ensures RemoveAll(xs, removed) == KeepLegal(xs)
  {
    if xs != [] {
      RemoveIllegalIsKeepLegal(xs[1..], removed);
    }
  }

  /** A rebuilt solution: goal first, start last, each state a successor of the next one. */
  ghost predicate IsSolutionPath(p: seq<State>)
  {
    && |p| >= 1
    && p[0] == Goal
    && p[|p| - 1] == Start
    && forall j :: 0 <= j < |p| - 1 ==> p[j] in Successors(p[j + 1])
  }

  /** `p` read from its last state to its first. */
  function Reverse(p: seq<State>): seq<State>
  {
    seq(|p|, j requires 0 <= j < |p| => p[|p| - 1 - j])
  }

  /** Read backwards, a rebuilt solution is a plan from the start to the goal. */
  lemma SolutionPathReversedIsPlan(p: seq<State>)
    requires IsSolutionPath(p)
    ensures IsPlan(Reverse(p))
  {
    var r := Reverse(p);
    assert |r| == |p|;
    forall j | 0 <= j < |r| - 1
      ensures r[j + 1] in Successors(r[j])
    {
      var k := |p| - 2 - j;
      assert p[k] in Successors(p[k + 1]);
      assert r[j] == p[k + 1] && r[j + 1] == p[k];
    }
    assert r[0] == p[|p| - 1] && r[|r| - 1] == p[0];
  }

  /** Every state on a rebuilt solution is well formed. */
  lemma {:induction false} SolutionPathWellFormed(p: seq<State>, n: int)
    requires IsSolutionPath(p)
    requires 0 <= n < |p|
    ensures WellFormed(p[n])
    decreases |p| - n
  {
    if n < |p| - 1 {
      SolutionPathWellFormed(p, n + 1);
      SuccessorsWellFormed(p[n + 1], p[n]);
    }
  }

  /** Explored states are well formed, so there are no more of them than in-range triples. */
  lemma ExploredBounded(explored: set<State>)
    requires forall s :: s in explored ==> WellFormed(s)
    ensures |explored| <= |Universe()|
  {
    forall s | s in explored
      ensures s in Universe()
    {
      WellFormedInUniverse(s);
    }
    assert Universe() == explored + (Universe() - explored);
  }

  /** A state in the frontier or the explored set. */
  ghost predicate Discovered(frontier: seq<State>, explored: set<State>, s: State)
  {
    s in explored || s in frontier
  }

  /** The bookkeeping every step of the search keeps: the frontier has no repeats and is
      disjoint from the explored set, both hold only well-formed states, the goal is in
      neither, and every discovered state but the start has a recorded parent that is
      explored, one crossing (and one unit of depth) before it. */
  ghost predicate Bookkeeping(frontier: seq<State>, explored: set<State>, parentMap: map<State, State>, depth: map<State, nat>)
  {
    && SearchSets(frontier, explored)
    && ParentLinks(frontier, explored, parentMap)
    && Depths(frontier, explored, parentMap, depth)
  }

  ghost predicate SearchSets(frontier: seq<State>, explored: set<State>)
  {
    && NoDuplicates(frontier)
    && (forall s :: s in frontier ==> s !in explored)
    && (forall s :: s in frontier ==> WellFormed(s))
    && (forall s :: s in explored ==> WellFormed(s))
    && (Start in explored || Start in frontier)
    && Goal !in explored && Goal !in frontier
  }

  ghost predicate ParentLinks(frontier: seq<State>, explored: set<State>, parentMap: map<State, State>)
  {
    && (forall k {:trigger k in parentMap} :: k in parentMap <==> Discovered(frontier, explored, k) && k != Start)
    && (forall k {:trigger k in parentMap} :: k in parentMap ==> parentMap[k] in explored)
    && (forall k {:trigger Successors(parentMap[k])} :: k in parentMap ==> k in Successors(parentMap[k]))
  }

  ghost predicate Depths(frontier: seq<State>, explored: set<State>, parentMap: map<State, State>, depth: map<State, nat>)
    requires ParentLinks(frontier, explored, parentMap)
  {
    && (forall s :: s in depth <==> Discovered(frontier, explored, s))
    && (forall k {:trigger k in parentMap} :: k in parentMap ==> depth[k] == depth[parentMap[k]] + 1)
  }

  /** Every successor of an explored state outside `skip` has been discovered. */
  ghost predicate ClosedExcept(frontier: seq<State>, explored: set<State>, skip: set<State>)
  {
    forall e, t {:trigger t in Successors(e)} :: e in explored && e !in skip && t in Successors(e) ==> Discovered(frontier, explored, t)
  }

  /** Taking the head of the frontier into the explored set keeps the bookkeeping; only the
      taken state may still have undiscovered successors. */
  lemma TakeFirstKeepsBookkeeping(frontier: seq<State>, explored: set<State>, parentMap: map<State, State>, depth: map<State, nat>)
    requires Bookkeeping(frontier, explored, parentMap, depth)
    requires frontier != []
    ensures WellFormed(frontier[0]) && frontier[0] !in explored
    ensures Bookkeeping(frontier[1..], explored + {frontier[0]}, parentMap, depth)
    ensures ClosedExcept(frontier, explored, {}) ==>
      ClosedExcept(frontier[1..], explored + {frontier[0]}, {frontier[0]})
  {
    var f, e := frontier[1..], explored + {frontier[0]};
    assert forall s :: s in frontier <==> s == frontier[0] || s in f;
    assert forall s :: Discovered(frontier, explored, s) <==> Discovered(f, e, s);
  }

  /** Recording a new child's parent and putting it at the back of the frontier keeps the bookkeeping. */
  lemma DiscoverKeepsBookkeeping(frontier: seq<State>, explored: set<State>, parentMap: map<State, State>, depth: map<State, nat>,
                                 node: State, child: State)
    requires Bookkeeping(frontier, explored, parentMap, depth)
    requires node in explored && child in Successors(node)
    requires !Discovered(frontier, explored, child) && child != Goal
    ensures Bookkeeping(frontier + [child], explored, parentMap[child := node], depth[child := depth[node] + 1])
  {
    var f, p, d := frontier + [child], parentMap[child := node], depth[child := depth[node] + 1];
    assert forall s :: s in f <==> s in frontier || s == child;
    SuccessorsWellFormed(node, child);
    AppendKeepsNoDuplicates(frontier, child);
    assert forall k :: k in p <==> Discovered(f, explored, k) && k != Start;
    assert forall s :: s in d <==> Discovered(f, explored, s);
    forall k | k in p
      ensures p[k] in explored && k in Successors(p[k])
      ensures d[k] == d[p[k]] + 1
    {
      if k == child {
        assert p[k] == node && d[k] == d[node] + 1;
      } else {
        assert k in parentMap && p[k] == parentMap[k] && parentMap[k] != child;
      }
    }
    assert SearchSets(f, explored);
    assert ParentLinks(f, explored, p);
    assert Depths(f, explored, p, d);
  }

  /** Every link of `q` is kept, unchanged, in `p`. */
  ghost predicate KeepsLinks(p: map<State, State>, q: map<State, State>)
  {
    forall k {:trigger k in q} :: k in q ==> k in p && p[k] == q[k]
  }

  lemma KeepsLinksTransitive(p: map<State, State>, q: map<State, State>, r: map<State, State>)
    requires KeepsLinks(p, q) && KeepsLinks(q, r)
    ensures KeepsLinks(p, r)
  {
  }

  /** The states of `cs`, in order, that a pass over `cs` takes as new: a state is taken
      when it is neither explored nor in the frontier, the states taken before it already
      counting as part of the frontier. */
  function Fresh(frontier: seq<State>, explored: set<State>, cs: seq<State>): seq<State>
  {
    if cs == [] then []
    else
      var r0 := Fresh(frontier, explored, cs[..|cs| - 1]);
      var c := cs[|cs| - 1];
      if c in explored || c in frontier || c in r0 then r0 else r0 + [c]
  }

  /** A pass takes, once each, exactly the states of `cs` that are neither explored nor
      in the frontier. */
  lemma {:induction false} FreshMembers(frontier: seq<State>, explored: set<State>, cs: seq<State>)
    ensures forall x {:trigger x in Fresh(frontier, explored, cs)} ::
      x in Fresh(frontier, explored, cs) <==> x in cs && x !in frontier && x !in explored
    ensures NoDuplicates(Fresh(frontier, explored, cs))
    decreases |cs|
  {
    if cs != [] {
      var r0 := Fresh(frontier, explored, cs[..|cs| - 1]);
      var c := cs[|cs| - 1];
      FreshMembers(frontier, explored, cs[..|cs| - 1]);
      assert cs == cs[..|cs| - 1] + [c];
      if !(c in explored || c in frontier || c in r0) {
        AppendKeepsNoDuplicates(r0, c);
      }
    }
  }

  /** Taking one more child of `cs` either takes it as new or passes over it. */
  lemma FreshStep(frontier: seq<State>, explored: set<State>, cs: seq<State>, i: int)
    requires 0 <= i < |cs|
    ensures Fresh(frontier, explored, cs[..i + 1]) ==
      if cs[i] in explored || cs[i] in frontier + Fresh(frontier, explored, cs[..i])
      then Fresh(frontier, explored, cs[..i])
      else Fresh(frontier, explored, cs[..i]) + [cs[i]]
  {
    assert cs[..i + 1][..i] == cs[..i];
  }

  /** `m` with each of `keys`, in turn, mapped to `v`. */
  function Extended<V>(m: map<State, V>, keys: seq<State>, v: V): map<State, V>
  {
    if keys == [] then m else Extended(m, keys[..|keys| - 1], v)[keys[|keys| - 1] := v]
  }

  lemma ExtendedStep<V>(m: map<State, V>, keys: seq<State>, k: State, v: V)
    ensures Extended(m, keys + [k], v) == Extended(m, keys, v)[k := v]
  {
    assert (keys + [k])[..|keys|] == keys;
  }

  /** Mapping the keys one at a time is the same as adding them all at once. */
  lemma {:induction false} ExtendedAddsAll<V>(m: map<State, V>, keys: seq<State>, v: V)
    ensures Extended(m, keys, v) == m + (map x | x in keys :: v)
    decreases |keys|
  {
    if keys != [] {
      var front, k := keys[..|keys| - 1], keys[|keys| - 1];
      ExtendedAddsAll(m, front, v);
      assert keys == front + [k];
      assert forall x {:trigger x in keys} :: x in keys <==> x in front || x == k;
    }
  }

  /** Part-way through a pass over `children`: the frontier, the parent links and the depths
      are those at the start of the pass, extended by the children taken as new so far, each
      appended at the back, linked to `node` and placed at depth `level`. */
  ghost predicate Grown(frontier0: seq<State>, parentMap0: map<State, State>, depth0: map<State, nat>,
                        explored: set<State>, node: State, level: nat, children: seq<State>, i: int,
                        frontier: seq<State>, parentMap: map<State, State>, depth: map<State, nat>)
  {
    && 0 <= i <= |children|
    && frontier == frontier0 + Fresh(frontier0, explored, children[..i])
    && parentMap == Extended(parentMap0, Fresh(frontier0, explored, children[..i]), node)
    && depth == Extended(depth0, Fresh(frontier0, explored, children[..i]), level)
  }

  lemma GrowSkip(frontier0: seq<State>, parentMap0: map<State, State>, depth0: map<State, nat>,
                 explored: set<State>, node: State, level: nat, children: seq<State>, i: int,
                 frontier: seq<State>, parentMap: map<State, State>, depth: map<State, nat>)
    requires Grown(frontier0, parentMap0, depth0, explored, node, level, children, i, frontier, parentMap, depth)
    requires i < |children| && (children[i] in explored || children[i] in frontier)
    ensures Grown(frontier0, parentMap0, depth0, explored, node, level, children, i + 1, frontier, parentMap, depth)
  {
    FreshStep(frontier0, explored, children, i);
  }

  lemma GrowNew(frontier0: seq<State>, parentMap0: map<State, State>, depth0: map<State, nat>,
                explored: set<State>, node: State, level: nat, children: seq<State>, i: int,
                frontier: seq<State>, parentMap: map<State, State>, depth: map<State, nat>)
    requires Grown(frontier0, parentMap0, depth0, explored, node, level, children, i, frontier, parentMap, depth)
    requires i < |children| && children[i] !in explored && children[i] !in frontier
    ensures Grown(frontier0, parentMap0, depth0, explored, node, level, children, i + 1,
                  frontier + [children[i]], parentMap[children[i] := node], depth[children[i] := level])
  {
    var c, taken := children[i], Fresh(frontier0, explored, children[..i]);
    FreshStep(frontier0, explored, children, i);
    assert Fresh(frontier0, explored, children[..i + 1]) == taken + [c];
    ExtendedStep(parentMap0, taken, c, node);
    ExtendedStep(depth0, taken, c, level);
    assert frontier + [c] == frontier0 + (taken + [c]);
  }

  /** Part-way through expanding `node`: the bookkeeping holds, every explored state but
      `node` is closed, the first `i` children are discovered, no link of `links0` is lost,
      and the search state is the one before the expansion grown by the children taken so far. */
  ghost predicate Expanding(frontier: seq<State>, explored: set<State>, parentMap: map<State, State>, depth: map<State, nat>,
                            node: State, children: seq<State>, i: int,
                            frontier0: seq<State>, links0: map<State, State>, depth0: map<State, nat>, level: nat)
  {
    && 0 <= i <= |children|
    && node in explored
    && Bookkeeping(frontier, explored, parentMap, depth)
    && ClosedExcept(frontier, explored, {node})
    && (forall j :: 0 <= j < i ==> Discovered(frontier, explored, children[j]))
    && KeepsLinks(parentMap, links0)
    && node in depth0 && level == depth0[node] + 1
    && Grown(frontier0, links0, depth0, explored, node, level, children, i, frontier, parentMap, depth)
  }

  /** Before the first child, the expansion invariant is the search invariant with `node`
      the only explored state not yet closed. */
  lemma StartExpanding(frontier: seq<State>, explored: set<State>, parentMap: map<State, State>, depth: map<State, nat>,
                       node: State, children: seq<State>)
    requires node in explored
    requires Bookkeeping(frontier, explored, parentMap, depth)
    requires ClosedExcept(frontier, explored, {node})
    ensures node in depth
    ensures Expanding(frontier, explored, parentMap, depth, node, children, 0,
                      frontier, parentMap, depth, depth[node] + 1)
  {
    assert children[..0] == [];
  }

  /** While `node` is expanded its own depth stays put, so `level` is one deeper than it. */
  lemma ExpandingLevel(frontier: seq<State>, explored: set<State>, parentMap: map<State, State>, depth: map<State, nat>,
                       node: State, children: seq<State>, i: int,
                       frontier0: seq<State>, links0: map<State, State>, depth0: map<State, nat>, level: nat)
    requires Expanding(frontier, explored, parentMap, depth, node, children, i, frontier0, links0, depth0, level)
    ensures node in depth && level == depth[node] + 1
  {
    FreshMembers(frontier0, explored, children[..i]);
    ExtendedAddsAll(depth0, Fresh(frontier0, explored, children[..i]), level);
  }

  /** A child already explored or waiting in the frontier is passed over. */
  lemma SkipChild(frontier: seq<State>, explored: set<State>, parentMap: map<State, State>, depth: map<State, nat>,
                  node: State, children: seq<State>, i: int,
                  frontier0: seq<State>, links0: map<State, State>, depth0: map<State, nat>, level: nat)
    requires Expanding(frontier, explored, parentMap, depth, node, children, i, frontier0, links0, depth0, level)
    requires i < |children| && Discovered(frontier, explored, children[i])
    ensures Expanding(frontier, explored, parentMap, depth, node, children, i + 1, frontier0, links0, depth0, level)
  {
    GrowSkip(frontier0, links0, depth0, explored, node, level, children, i, frontier, parentMap, depth);
  }

  /** A new child other than the goal gets `node` as parent and joins the frontier. */
  lemma DiscoverChild(frontier: seq<State>, explored: set<State>, parentMap: map<State, State>, depth: map<State, nat>,
                      node: State, children: seq<State>, i: int,
                      frontier0: seq<State>, links0: map<State, State>, depth0: map<State, nat>, level: nat)
    requires Expanding(frontier, explored, parentMap, depth, node, children, i, frontier0, links0, depth0, level)
    requires i < |children| && children[i] in Successors(node)
    requires !Discovered(frontier, explored, children[i]) && children[i] != Goal
    ensures Expanding(frontier + [children[i]], explored, parentMap[children[i] := node],
                      depth[children[i] := level], node, children, i + 1, frontier0, links0, depth0, level)
  {
    var child := children[i];
    ExpandingLevel(frontier, explored, parentMap, depth, node, children, i, frontier0, links0, depth0, level);
    DiscoverKeepsBookkeeping(frontier, explored, parentMap, depth, node, child);
    GrowKeepsDiscovered(frontier, explored, child);
    GrowNew(frontier0, links0, depth0, explored, node, level, children, i, frontier, parentMap, depth);
    var f, p := frontier + [child], parentMap[child := node];
    assert ClosedExcept(f, explored, {node});
    assert forall j :: 0 <= j < i + 1 ==> Discovered(f, explored, children[j]);
    assert child !in parentMap;
    assert KeepsLinks(p, links0);
  }

  /** Appending to the frontier loses no discovered state, and keeps closed what was closed. */
  lemma GrowKeepsDiscovered(frontier: seq<State>, explored: set<State>, child: State)
    ensures forall s :: Discovered(frontier, explored, s) ==> Discovered(frontier + [child], explored, s)
    ensures Discovered(frontier + [child], explored, child)
    ensures forall skip :: ClosedExcept(frontier, explored, skip) ==> ClosedExcept(frontier + [child], explored, skip)
  {
    assert forall s :: s in frontier + [child] <==> s in frontier || s == child;
  }

  /** The search state after a full pass over `children` from `node`, given the state
      before it: the children taken as new are appended to the frontier in order, each
      linked to `node` as its parent and placed one crossing deeper than `node`. */
  ghost predicate ExpandedFrom(frontier0: seq<State>, links0: map<State, State>, depth0: map<State, nat>,
                               explored: set<State>, node: State, children: seq<State>,
                               frontier: seq<State>, parentMap: map<State, State>, depth: map<State, nat>)
  {
    && node in depth0
    && var taken, level := Fresh(frontier0, explored, children), depth0[node] + 1;
    && frontier == frontier0 + taken
    && parentMap == links0 + (map c | c in taken :: node)
    && depth == depth0 + (map c | c in taken :: level)
  }

  /** Once every child is discovered, every explored state is closed again, and the
      search state is the one before the expansion grown by every child taken as new. */
  lemma FinishExpanding(frontier: seq<State>, explored: set<State>, parentMap: map<State, State>, depth: map<State, nat>,
                        node: State, children: seq<State>,
                        frontier0: seq<State>, links0: map<State, State>, depth0: map<State, nat>, level: nat)
    requires Expanding(frontier, explored, parentMap, depth, node, children, |children|, frontier0, links0, depth0, level)
    requires children == Successors(node)
    requires node in depth0 && level == depth0[node] + 1
    ensures Bookkeeping(frontier, explored, parentMap, depth)
    ensures ClosedExcept(frontier, explored, {})
    ensures KeepsLinks(parentMap, links0)
    ensures ExpandedFrom(frontier0, links0, depth0, explored, node, children, frontier, parentMap, depth)
  {
    forall t | t in Successors(node)
      ensures Discovered(frontier, explored, t)
    {
      var j :| 0 <= j < |children| && children[j] == t;
    }
    ExpandedIsClosed(frontier, explored, node);
    assert children[..|children|] == children;
    ExtendedAddsAll(links0, Fresh(frontier0, explored, children), node);
    ExtendedAddsAll(depth0, Fresh(frontier0, explored, children), level);
  }

  /** Each expanded state has all its successors discovered. */
  lemma ExpandedIsClosed(frontier: seq<State>, explored: set<State>, node: State)
    requires ClosedExcept(frontier, explored, {node})
    requires forall t :: t in Successors(node) ==> Discovered(frontier, explored, t)
    ensures ClosedExcept(frontier, explored, {})
  {
  }

  /** An exhausted search has explored the start, not the goal, and a set no crossing leads out of. */
  lemma ExhaustedIsClosed(explored: set<State>, parentMap: map<State, State>, depth: map<State, nat>)
    requires Bookkeeping([], explored, parentMap, depth)
    requires ClosedExcept([], explored, {})
    ensures Start in explored && Goal !in explored
    ensures ClosedUnderSuccessors(explored)
  {
    forall s, t | s in explored && t in Successors(s)
      ensures t in explored
    {
      assert Discovered([], explored, t);
    }
  }

  /** Parent links that step one crossing and one unit of depth back, ending only at the start. */
  ghost predicate LinksLeadToStart(links: map<State, State>, depths: map<State, nat>)
  {
    && (forall k {:trigger k in links} :: k in links ==>
          links[k] in depths && k in depths && depths[k] == depths[links[k]] + 1)
    && (forall k {:trigger Successors(links[k])} :: k in links ==> k in Successors(links[k]))
    && (forall s :: s in depths && s !in links ==> s == Start)
  }

  /** `chain` starts somewhere and follows `links` until it reaches a state without one. */
  ghost predicate FollowsLinks(links: map<State, State>, chain: seq<State>)
  {
    && |chain| >= 1
    && (forall j {:trigger chain[j] in links} :: 0 <= j < |chain| - 1 ==> chain[j] in links && links[chain[j]] == chain[j + 1])
    && chain[|chain| - 1] !in links
  }

  /** The states of `chain` other than its last. */
  ghost function AllButLast(chain: seq<State>): set<State>
  {
    set j | 0 <= j < |chain| - 1 :: chain[j]
  }

  /** What following the links keeps: the states consumed so far are those of the chain
      walked so far except the current one, and they all lie deeper than it; the chain runs
      from the goal to the current state along the links. */
  ghost predicate RebuildInvariant(links: map<State, State>, depths: map<State, nat>, removed: set<State>,
                                   chain: seq<State>, current: State)
  {
    && current in depths
    && (forall r :: r in removed ==> r in depths && depths[r] > depths[current])
    && |chain| >= 1 && chain[0] == Goal && chain[|chain| - 1] == current
    && (forall j {:trigger chain[j] in links} :: 0 <= j < |chain| - 1 ==> chain[j] in links && links[chain[j]] == chain[j + 1])
    && removed == AllButLast(chain)
  }

  /** Consuming the current link moves one step closer to the start. */
  lemma RebuildStep(links: map<State, State>, depths: map<State, nat>, removed: set<State>,
                    chain: seq<State>, current: State)
    requires LinksLeadToStart(links, depths)
    requires RebuildInvariant(links, depths, removed, chain, current)
    requires current in links && current !in removed
    ensures RebuildInvariant(links, depths, removed + {current}, chain + [links[current]], links[current])
  {
    var c := chain + [links[current]];
    forall j | 0 <= j < |c| - 1
      ensures c[j] in links && links[c[j]] == c[j + 1]
    {
      if j < |chain| - 1 {
        assert c[j] == chain[j] && c[j + 1] == chain[j + 1];
      }
    }
    AllButLastGrows(chain, links[current]);
  }

  /** Extending a chain adds its former last state to the states other than the last. */
  lemma AllButLastGrows(chain: seq<State>, x: State)
    requires |chain| >= 1
    ensures AllButLast(chain + [x]) == AllButLast(chain) + {chain[|chain| - 1]}
  {
    var c := chain + [x];
    forall r | r in AllButLast(c)
      ensures r in AllButLast(chain) + {chain[|chain| - 1]}
    {
      var j :| 0 <= j < |c| - 1 && c[j] == r;
      if j < |chain| - 1 {
        assert r == chain[j];
      }
    }
    forall r | r in AllButLast(chain) + {chain[|chain| - 1]}
      ensures r in AllButLast(c)
    {
      if r == chain[|chain| - 1] {
        assert c[|chain| - 1] == r;
      } else {
        var j :| 0 <= j < |chain| - 1 && chain[j] == r;
        assert c[j] == r;
      }
    }
  }

  /** When no link is left at the current state, the walk has reached the start: the chain
      walked is the whole chain of links from the goal, and a solution path. */
  lemma RebuildDone(links: map<State, State>, depths: map<State, nat>, removed: set<State>,
                    chain: seq<State>, current: State)
    requires LinksLeadToStart(links, depths)
    requires RebuildInvariant(links, depths, removed, chain, current)
    requires current !in links - removed
    ensures FollowsLinks(links, chain) && IsSolutionPath(chain)
  {
    assert current !in removed;
    LinkedChainIsSolutionPath(links, depths, chain);
  }

  /** A chain that follows the links from the goal to the start is a solution path. */
  lemma LinkedChainIsSolutionPath(links: map<State, State>, depths: map<State, nat>, chain: seq<State>)
    requires LinksLeadToStart(links, depths)
    requires |chain| >= 1 && chain[0] == Goal && chain[|chain| - 1] == Start
    requires forall j :: 0 <= j < |chain| - 1 ==> chain[j] in links && links[chain[j]] == chain[j + 1]
    ensures IsSolutionPath(chain)
  {
  }

  /** Once the goal is linked to the state it was found from, the links lead back to the start. */
  lemma GoalLinksLeadToStart(frontier: seq<State>, explored: set<State>, parentMap: map<State, State>, depth: map<State, nat>,
                             node: State, level: nat)
    requires Bookkeeping(frontier, explored, parentMap, depth)
    requires node in explored && Goal in Successors(node)
    requires node in depth && level == depth[node] + 1
    ensures LinksLeadToStart(parentMap[Goal := node], depth[Goal := level])
  {
  }

  class BreadthFirstSearch {
    /** The state most recently taken from the frontier. */
    var node: State
    var goal: State
    /** States waiting to be expanded, oldest first. */
    var frontier: seq<State>
    /** States already taken from the frontier and expanded. */
    var explored: set<State>
    /** The legal children of the state being expanded. */
    var childNodes: seq<State>
    /** Each discovered state other than the start, mapped to the state it was discovered from. */
    var parentMap: map<State, State>
    /** The number of crossings from the start at which each state was discovered. */
    ghost var depth: map<State, nat>

    /** The search invariant: the bookkeeping holds and every explored state has been expanded. */
    ghost predicate Valid()
      reads this
    {
      && goal == Goal
      && Bookkeeping(frontier, explored, parentMap, depth)
      && ClosedExcept(frontier, explored, {})
    }

    /** The search starts with only the start state in the frontier. */
    constructor ()
      ensures Valid()
      ensures node == Start && goal == Goal
      ensures frontier == [Start] && explored == {} && parentMap == map[]
    {
      node := Start;
      frontier := [Start];
      goal := Goal;
      explored := {};
      childNodes := [];
      parentMap := map[];
      depth := map[Start := 0];
    }

    /** Searches for the goal. On success the path from the goal back to the start is
        appended to `solution`; when the most recent node already is the goal, nothing is
        appended. `false` is returned only once the frontier has run dry. */
    method Search(solution: seq<State>) returns (found: bool, path: seq<State>)
      requires Valid()
      modifies this
      ensures old(node) == Goal ==> found && path == solution && unchanged(this)
      ensures found && old(node) != Goal ==>
        |path| > |solution| && path[..|solution|] == solution && IsSolutionPath(path[|solution|..])
      ensures found && old(node) != Goal ==> |path| > |solution| + 1 && path[|solution| + 1] == node
      ensures !found ==> path == solution && Valid() && frontier == []
      ensures !found ==> Start in explored && Goal !in explored && ClosedUnderSuccessors(explored)
      ensures !found ==> old(explored) <= explored
      ensures !found ==> KeepsLinks(parentMap, old(parentMap))
    {
      path := solution;
      if node == goal {
        return true, path;
      }
      ExploredBounded(explored);
      while frontier != []
        invariant Valid()
        invariant path == solution
        invariant old(explored) <= explored
        invariant KeepsLinks(parentMap, old(parentMap))
        invariant |explored| <= |Universe()|
        decreases |Universe()| - |explored|
      {
        TakeNext();
        ApplyActions(node);
        ghost var links := parentMap;
        found, path := VisitChildren(solution);
        if found {
          return;
        }
        KeepsLinksTransitive(parentMap, links, old(parentMap));
        ExploredBounded(explored);
      }
      ExhaustedIsClosed(explored, parentMap, depth);
      return false, path;
    }

    /** Takes the head of the frontier as the node to expand and marks it explored. */
    method TakeNext()
      requires Valid() && frontier != []
      modifies this`node, this`frontier, this`explored
      ensures node == old(frontier[0]) && frontier == old(frontier[1..]) && explored == old(explored) + {node}
      ensures node !in old(explored)
      ensures Bookkeeping(frontier, explored, parentMap, depth)
      ensures ClosedExcept(frontier, explored, {node})
    {
      TakeFirstKeepsBookkeeping(frontier, explored, parentMap, depth);
      node, frontier, explored := frontier[0], frontier[1..], explored + {frontier[0]};
    }

    /** The body of one expansion: every child of `node` that is neither explored nor in
        the frontier gets `node` as its parent; the goal ends the search with the rebuilt
        path, any other child joins the back of the frontier. */
    method VisitChildren(solution: seq<State>) returns (found: bool, path: seq<State>)
      requires goal == Goal && childNodes == Successors(node)
      requires node in explored
      requires Bookkeeping(frontier, explored, parentMap, depth)
      requires ClosedExcept(frontier, explored, {node})
      modifies this`frontier, this`parentMap, this`depth
      ensures found ==>
        |path| > |solution| && path[..|solution|] == solution && IsSolutionPath(path[|solution|..])
      ensures found ==> |path| > |solution| + 1 && path[|solution| + 1] == node
      ensures !found ==> path == solution && Valid() && KeepsLinks(parentMap, old(parentMap))
      ensures !found ==>
        ExpandedFrom(old(frontier), old(parentMap), old(depth), explored, node, childNodes, frontier, parentMap, depth)
    {
      found, path := false, solution;
      StartExpanding(frontier, explored, parentMap, depth, node, childNodes);
      ghost var level := depth[node] + 1;
      var i := 0;
      while i < |childNodes|
        invariant Expanding(frontier, explored, parentMap, depth, node, childNodes, i,
                            old(frontier), old(parentMap), old(depth), level)
        invariant path == solution
      {
        found, path := VisitChild(i, solution, old(frontier), old(parentMap), old(depth), level);
        if found {
          return;
        }
        i := i + 1;
      }
      FinishExpanding(frontier, explored, parentMap, depth, node, childNodes,
                      old(frontier), old(parentMap), old(depth), level);
    }

    /** Visits the `i`-th child: one that is neither explored nor in the frontier gets
        `node` as its parent (one crossing deeper), and then either is the goal, which ends
        the search with the rebuilt path, or joins the back of the frontier. */
    method VisitChild(i: int, solution: seq<State>, ghost frontier0: seq<State>, ghost links0: map<State, State>,
                      ghost depth0: map<State, nat>, ghost level: nat)
        returns (found: bool, path: seq<State>)
      requires goal == Goal && childNodes == Successors(node) && i < |childNodes|
      requires Expanding(frontier, explored, parentMap, depth, node, childNodes, i, frontier0, links0, depth0, level)
      modifies this`frontier, this`parentMap, this`depth
      ensures found ==>
        |path| > |solution| && path[..|solution|] == solution && IsSolutionPath(path[|solution|..])
      ensures found ==> FollowsLinks(old(parentMap)[Goal := node], path[|solution|..])
      ensures found ==> |path| > |solution| + 1 && path[|solution| + 1] == node
      ensures !found ==>
        path == solution &&
        Expanding(frontier, explored, parentMap, depth, node, childNodes, i + 1, frontier0, links0, depth0, level)
    {
      var tmpNode := childNodes[i];
      if tmpNode !in explored && tmpNode !in frontier {
        ghost var parents, depths := parentMap, depth;
        ExpandingLevel(frontier, explored, parentMap, depth, node, childNodes, i, frontier0, links0, depth0, level);
        parentMap := parentMap[tmpNode := node];
        depth := depth[tmpNode := level];
        if tmpNode == goal {
          GoalLinksLeadToStart(frontier, explored, parents, depths, node, level);
          path := Rebuild(tmpNode, solution);
          assert path[|solution|..][0] in parentMap[Goal := node];
          return true, path;
        } else {
          DiscoverChild(frontier, explored, parents, depths, node, childNodes, i, frontier0, links0, depth0, level);
          frontier := frontier + [tmpNode];
        }
      } else {
        SkipChild(frontier, explored, parentMap, depth, node, childNodes, i, frontier0, links0, depth0, level);
      }
      return false, solution;
    }

    /** Appends the goal and then follows the parent links back to the start, consuming
        them: the appended part is the chain of parent links from the goal, every link
        followed is removed, and the chain is a solution path. */
    method Rebuild(tmpNode: State, solution: seq<State>) returns (path: seq<State>)
      requires tmpNode == Goal && tmpNode in depth
      requires LinksLeadToStart(parentMap, depth)
      modifies this`parentMap
      ensures |path| > |solution| && path[..|solution|] == solution && path[|solution|] == tmpNode
      ensures FollowsLinks(old(parentMap), path[|solution|..])
      ensures parentMap == old(parentMap) - AllButLast(path[|solution|..])
      ensures IsSolutionPath(path[|solution|..])
    {
      path := solution + [tmpNode];
      var current := tmpNode;
      ghost var links := parentMap;
      ghost var removed: set<State> := {};
      ghost var chain := [tmpNode];
      assert AllButLast(chain) == {};
      while current in parentMap
        invariant parentMap == links - removed
        invariant RebuildInvariant(links, depth, removed, chain, current)
        invariant path == solution + chain
        decreases depth[current]
      {
        var parent := parentMap[current];
        RebuildStep(links, depth, removed, chain, current);
        path := path + [parent];
        chain := chain + [parent];
        removed := removed + {current};
        parentMap := parentMap - {current};
        current := parent;
      }
      RebuildDone(links, depth, removed, chain, current);
      assert path[|solution|..] == chain;
    }

    /** Fills `childNodes` with the legal children of `node`, in load order. */
    method ApplyActions(node: State)
      modifies this`childNodes
      ensures childNodes == Successors(node)
    {
      childNodes := [];
      var boatPosition := node.b;
      var i := 0;
      while i < |Loads|
        invariant 0 <= i <= |Loads|
        invariant childNodes == Candidates(node)[..i]
      {
        var tmpNode := new int[3];
        tmpNode[0], tmpNode[1], tmpNode[2] := node.m, node.c, node.b;
        CreateChildState(tmpNode, Loads[i].missionaries, Loads[i].cannibals, boatPosition);
        var child := State(tmpNode[0], tmpNode[1], tmpNode[2]);
        assert child == Candidates(node)[i];
        assert Candidates(node)[..i + 1] == Candidates(node)[..i] + [child];
        childNodes := childNodes + [child];
        i := i + 1;
      }
      assert childNodes == Candidates(node);
      var removeChildNodes: seq<State> := [];
      var j := 0;
      while j < |childNodes|
        invariant 0 <= j <= |childNodes|
        invariant childNodes == Candidates(node)
        invariant forall x :: x in childNodes[..j] ==> (x in removeChildNodes <==> Illegal(x))
        invariant forall x :: x in removeChildNodes ==> Illegal(x)
      {
        if Illegal(childNodes[j]) {
          removeChildNodes := removeChildNodes + [childNodes[j]];
        }
        j := j + 1;
      }
      assert childNodes[..j] == childNodes;
      RemoveIllegalIsKeepLegal(childNodes, removeChildNodes);
      childNodes := RemoveAll(childNodes, removeChildNodes);
    }

    /** Moves a load across the river in the three-element state `node`, in place. */
    method CreateChildState(node: array<int>, missionaries: int, cannibals: int, boatPosition: int)
      requires node.Length == 3
      modifies node
      ensures State(node[0], node[1], node[2])
        == Cross(State(old(node[0]), old(node[1]), old(node[2])), missionaries, cannibals, boatPosition)
    {
      if boatPosition == 1 {
        node[0] := node[0] - missionaries;
        node[1] := node[1] - cannibals;
        node[2] := node[2] - 1;
      } else {
        node[0] := node[0] + missionaries;
        node[1] := node[1] + cannibals;
        node[2] := node[2] + 1;
      }
    }
  }
}
