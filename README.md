# Breadth-first search for missionaries and cannibals

This project models, in Dafny, the class `BreadthFirstSearch` of the missionaries-and-cannibals
solver. The class searches breadth-first for a way to ferry three missionaries and three
cannibals across a river. A state is a triple `(m, c, b)`:

- `m` is the number of missionaries on the starting bank;
- `c` is the number of cannibals on the starting bank;
- `b` is `1` when the boat is at the starting bank and `0` otherwise.

The search starts at `(3,3,1)` and looks for `(0,0,0)`.

It is split over two modules:

- `Puzzle` (`puzzle.dfy`) holds the pieces of the puzzle that are pure values:
  - the `State` triple;
  - the move arithmetic of `createChildState` (`Cross`, `Move`);
  - the removal test of `applyActions` (`Illegal`, `Legal`);
  - the five candidate children in load order (`Candidates`);
  - the filtered children (`Successors`);
  - reachability facts: the classic eleven-crossing plan, and the fact that any set closed under crossings that holds the start also holds the goal.
- `Search` (`breadth_first_search.dfy`) holds the class `BreadthFirstSearch`. Its fields are those of the Java class:
  - `node`;
  - `goal`;
  - `frontier`, a FIFO `seq`;
  - `explored`, a `set`;
  - `childNodes`, a `seq`;
  - `parentMap`, a `map`;
  - a ghost field `depth`, used only in proofs. It records the number of crossings at which each state was discovered.

  The class methods are:
  - the constructor;
  - `Search`;
  - `ApplyActions`, which fills `childNodes`;
  - `CreateChildState`, which updates a three-element `array<int>` in place, as the Java method updates its `ArrayList<Integer>`.

  The module also holds the search invariant (`Valid`, built from `Bookkeeping` and `ClosedExcept`) and the lemmas that show each step keeps it.

Mapping from the Java code:

- Java's `search` fills the caller's `solution` list in place. Here `Search` takes the list as a value `solution` and returns `path`, which is `solution` with the appended states.
- Taking the head of the frontier and marking it explored (lines 92-95) is the method `TakeNext`.
- The `for` loop over `childNodes` (lines 101-144) is the method `VisitChildren`, and its body, for one child, is the method `VisitChild`.
- The rebuild loop (lines 113-133) is the method `Rebuild`.
- `Search` calls `TakeNext`, `ApplyActions` and `VisitChildren`; `VisitChildren` calls `VisitChild`, and `VisitChild` calls `Rebuild`.

The branches, the order of operations and the field updates are those of the Java code.

`Search` promises the following:

- If it returns `true` after expanding states, the appended part of `path` is a solution path. Its first state is the goal and its last state is the start. Each state in it is a legal single crossing away from the state after it.
- If `node` already equals the goal, it returns `true` and appends nothing.
- It returns `false` only with an empty frontier. In that case the explored set holds the start but not the goal, and no legal crossing leads out of it. The lemma `ClosedSetReachesGoal` shows that no such set exists, so the `false` branch is never taken.
- Both loops terminate:
  - the main loop, because each pass explores one more of the 32 in-range triples (`Puzzle.UniverseSize`);
  - the rebuild loop, because each step moves to a parent discovered one crossing earlier.

Two behaviours of the code are worth stating on their own:

- From `(3,3,1)` the filter keeps three children: `(3,2,0)`, `(3,1,0)` and `(2,2,0)`, in that order (`Puzzle.StartSuccessors`). Both missionary-only loads are rejected at line 212.
- When `node` already equals the goal, lines 79-80 return `true` without appending anything to `solution`. The search structures are fields of the object, so a second call continues from the state the first one left.

## Model

| member | source | states |
|---|---|---|
| Puzzle.CrossThereAndBack | src/search/BreadthFirstSearch.java:241-254 | A load moved from the boat's bank flips the boat bit. Moving the same load back restores the original state. |
| Puzzle.LegalIsBothBanksSafe | src/search/BreadthFirstSearch.java:198-222 | The four-branch removal test keeps a state exactly when both counts lie in 0..3 and each bank has no missionaries or at least as many missionaries as cannibals. |
| Puzzle.CandidatesAreBoatLoads | src/search/BreadthFirstSearch.java:160-192 | A state is one of the five unfiltered children exactly when the boat bit has flipped and the boat carried one or two people, counted as non-negative numbers in the direction it travelled. |
| Puzzle.KeepLegal | src/search/BreadthFirstSearch.java:198-225 | Filtering keeps exactly the legal elements of the list and never lengthens it. |
| Puzzle.SuccessorsAreLegalMoves | src/search/BreadthFirstSearch.java:154-227 | A state is a child of `s` exactly when it is legal and one of the five loads produces it from `s`. |
| Puzzle.SuccessorsWellFormed | src/search/BreadthFirstSearch.java:241-254 | A child of a legal state with the boat on a bank is legal and has the boat on the other bank. |
| Puzzle.SuccessorsReversible | src/search/BreadthFirstSearch.java:154-227 | Every legal crossing can be undone: if `t` is a child of `s`, then `s` is a child of `t`. |
| Puzzle.StartSuccessors | src/search/BreadthFirstSearch.java:174-225 | From (3,3,1) the children are exactly [(3,2,0), (3,1,0), (2,2,0)], in that order. |
| Puzzle.KnownPlanIsPlan | src/search/BreadthFirstSearch.java:154-227 | The classic eleven-crossing sequence from (3,3,1) to (0,0,0) is made of legal children. |
| Puzzle.PlanStaysInClosedSet | src/search/BreadthFirstSearch.java:154-227 | A plan that starts in a set no crossing leads out of stays in that set. |
| Puzzle.ClosedSetReachesGoal | src/search/BreadthFirstSearch.java:84-89 | Any set closed under crossings that holds the start holds the goal, so an exhausted search that has not met the goal cannot exist. |
| Search.NoDuplicatesDistinct | src/search/BreadthFirstSearch.java:105 | The frontier's "no repeats" property holds exactly when any two positions hold different states. |
| Search.AppendKeepsNoDuplicates | src/search/BreadthFirstSearch.java:141 | Enqueueing a state that is not yet in the frontier keeps the frontier free of repeats. |
| Search.RemoveAll | src/search/BreadthFirstSearch.java:225 | `removeAll` keeps exactly the elements equal to none of the removed list, and never lengthens the list. |
| Search.RemoveIllegalIsKeepLegal | src/search/BreadthFirstSearch.java:198-225 | Removing a list that holds exactly the illegal children gives the same list as filtering by legality. |
| Search.SolutionPathReversedIsPlan | src/search/BreadthFirstSearch.java:111-136 | Read backwards, a rebuilt solution is a plan from the start to the goal. |
| Search.SolutionPathWellFormed | src/search/BreadthFirstSearch.java:111-136 | Every state on a rebuilt solution is legal and has the boat on a bank. |
| Puzzle.UniverseSize | src/search/BreadthFirstSearch.java:84-98 | There are exactly 32 in-range triples (counts in 0..3, boat bit 0 or 1), 16 with the boat on each side. |
| Search.ExploredBounded | src/search/BreadthFirstSearch.java:84-98 | The explored set never holds more states than the in-range triples. This bounds the main loop. |
| Search.TakeFirstKeepsBookkeeping | src/search/BreadthFirstSearch.java:92-95 | Moving the head of the frontier into the explored set keeps the frontier and the explored set disjoint and the parent links intact. Only the moved state may still have undiscovered children. |
| Search.DiscoverKeepsBookkeeping | src/search/BreadthFirstSearch.java:105-141 | Recording `node` as the parent of a new non-goal child and enqueueing the child keeps the bookkeeping. |
| Search.GrowKeepsDiscovered | src/search/BreadthFirstSearch.java:141 | Enqueueing loses no discovered state and keeps closed every state that was closed. |
| Search.FreshMembers | src/search/BreadthFirstSearch.java:101-141 | One pass over the children takes, once each, exactly those children that are neither explored nor already in the frontier. |
| Search.StartExpanding | src/search/BreadthFirstSearch.java:92-101 | Before the first child is visited, the expansion invariant holds with nothing taken yet. |
| Search.GrowSkip | src/search/BreadthFirstSearch.java:105 | Passing over a child that is explored or in the frontier leaves the frontier, links and depths equal to the state before the pass grown by the children taken so far. |
| Search.GrowNew | src/search/BreadthFirstSearch.java:105-141 | Taking a new child appends it to the back of the frontier, links it to `node` and places it one crossing deeper, which is the state before the pass grown by one more taken child. |
| Search.SkipChild | src/search/BreadthFirstSearch.java:105 | A child already explored or already in the frontier is passed over without breaking the expansion invariant. |
| Search.DiscoverChild | src/search/BreadthFirstSearch.java:105-142 | Parenting and enqueueing a new non-goal child advances the expansion invariant by one child. No earlier parent link changes. |
| Search.FinishExpanding | src/search/BreadthFirstSearch.java:101-144 | After every child has been visited, every explored state, including the one just expanded, has all its children discovered. The frontier is the old frontier followed by the children taken, in order, and exactly those children gained `node` as parent, one crossing deeper. |
| Search.ExpandedIsClosed | src/search/BreadthFirstSearch.java:101-144 | A state whose children are all discovered joins the closed explored states. |
| Search.ExhaustedIsClosed | src/search/BreadthFirstSearch.java:87-89 | With an empty frontier, the explored set holds the start, does not hold the goal, and no crossing leads out of it. |
| Search.KeepsLinksTransitive | src/search/BreadthFirstSearch.java:105-108 | The parent links are write-once: links kept across two steps are kept across both. |
| Search.GoalLinksLeadToStart | src/search/BreadthFirstSearch.java:108-111 | Once the goal is linked to the state it was found from, every link points one crossing and one level of depth back, and only the start has no link. |
| Search.RebuildStep | src/search/BreadthFirstSearch.java:120-133 | Consuming the current link extends the walked chain by the parent. The consumed states are exactly the chain's states but the last, and all lie deeper than the new current state. |
| Search.RebuildDone | src/search/BreadthFirstSearch.java:119-133 | When the current state has no link left, the walked chain follows the links from the goal to a state without a link, and it is a solution path. |
| Search.LinkedChainIsSolutionPath | src/search/BreadthFirstSearch.java:111-136 | A chain that follows the parent links from the goal to the start is a solution path. |
| Search.BreadthFirstSearch.constructor | src/search/BreadthFirstSearch.java:52-66 | The object starts with node (3,3,1), goal (0,0,0), the start alone in the frontier, nothing explored and no parent links. The search invariant holds. |
| Search.BreadthFirstSearch.Search | src/search/BreadthFirstSearch.java:76-146 | Returns `true`, appends nothing and changes no field when `node` is already the goal. On any other `true`, it appends a solution path from the goal back to the start whose second state is the `node` being expanded, the goal's parent. It returns `false` only with an empty frontier and a closed explored set that holds the start but not the goal. In that case the invariant still holds and no parent link was overwritten. |
| Search.BreadthFirstSearch.VisitChildren | src/search/BreadthFirstSearch.java:101-144 | Finding the goal returns a solution path whose second state is `node`, the goal's parent. Otherwise the invariant holds again and no earlier link changes. The new frontier is the old one followed, in order, by the children that were neither explored nor queued (a child repeated in the list is taken once). Exactly those children are linked to `node` and placed one crossing deeper than it. |
| Search.BreadthFirstSearch.VisitChild | src/search/BreadthFirstSearch.java:103-143 | A child neither explored nor queued is linked to `node`. If it is the goal, the returned path appends the chain of parent links from the goal, with the goal linked to `node`, and this chain is a solution path. Otherwise a new child joins the back of the frontier. Either way, when the goal is not found the expansion invariant advances by one child. |
| Search.BreadthFirstSearch.Rebuild | src/search/BreadthFirstSearch.java:113-133 | Appends the goal, then the chain of parent links from it up to the first state without a link. Every link followed is removed from `parentMap` and no other one is. The appended chain is a solution path. |
| Search.BreadthFirstSearch.TakeNext | src/search/BreadthFirstSearch.java:92-95 | The head of the frontier becomes `node`, leaves the frontier and joins the explored set, which did not hold it before. The bookkeeping still holds, and only `node` may have undiscovered children. |
| Search.BreadthFirstSearch.ApplyActions | src/search/BreadthFirstSearch.java:154-227 | `childNodes` becomes exactly the legal children of `node`, in load order. |
| Search.BreadthFirstSearch.CreateChildState | src/search/BreadthFirstSearch.java:241-254 | With boat position 1 the load leaves the starting bank and the boat bit drops by one. Otherwise the load joins the starting bank and the boat bit rises by one. All three components are given. |

## Left out

- Java collection mechanics are not modelled:
  - `ArrayList<Integer>` used as a mutable hash key;
  - hashing in `HashSet` and `HashMap`;
  - the linear cost of `ArrayDeque.contains`.

  States are immutable datatype values, and the collections are `seq`, `set` and `map`. Only membership and order are modelled.
- `ApplyActions` merges two steps of the source into one loop over the five loads: the copy loop (lines 160-172) and the five `createChildState` calls (lines 180-192). Each child is still a fresh three-element array updated in place by `CreateChildState`.
- The `for` loop, its body and the rebuild loop of `search` are helper methods (`VisitChildren`, `VisitChild`, `Rebuild`), not inline code, so that each can be verified on its own.
- Search.BreadthFirstSearch.Search: it requires the search invariant. So the model covers a fresh object, or one whose earlier search returned `false`. It does not cover a second call after a `true` return, when the rebuild has already removed parent links.
- Search.BreadthFirstSearch.Search: it does not state that the returned path is a shortest one. The code never promises optimality.
- No printing or driver code is part of this model. The only outputs are the boolean and the appended states.
