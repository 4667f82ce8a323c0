/**
 The three-missionary / three-cannibal river crossing: states, the boat moves that
 link them, and the rule that decides which states are allowed.
 */
module Puzzle {

  /** A configuration of the puzzle: missionaries `m` and cannibals `c` on the
      starting bank, and where the boat is (`b == 1`: starting bank, `b == 0`: far bank). */
  datatype State = State(m: int, c: int, b: int)

  /** A boat load: how many missionaries and cannibals cross together. */
  datatype Load = Load(missionaries: int, cannibals: int)

  const Start := State(3, 3, 1)
  const Goal := State(0, 0, 0)

  /** The five loads, in the order the children of a state are generated. */
  const Loads: seq<Load> := [Load(1, 0), Load(2, 0), Load(0, 1), Load(0, 2), Load(1, 1)]

  /** Moving a load across the river: from the starting bank (boat position 1) the load
      leaves the starting-bank counts; otherwise it joins them. The boat field is
      decremented or incremented accordingly. */
  function Cross(s: State, missionaries: int, cannibals: int, boatPosition: int): State
  {
    if boatPosition == 1 then State(s.m - missionaries, s.c - cannibals, s.b - 1)
    else State(s.m + missionaries, s.c + cannibals, s.b + 1)
  }

  /** The boat, starting where it is, carries `load` to the other bank. */
  function Move(s: State, load: Load): State
  {
    Cross(s, load.missionaries, load.cannibals, s.b)
  }

  /** Crossing with a load and then crossing back with the same load restores the state. */
  lemma CrossThereAndBack(s: State, missionaries: int, cannibals: int)
    requires s.b == 0 || s.b == 1
    ensures Cross(s, missionaries, cannibals, s.b).b == 1 - s.b
    ensures Cross(Cross(s, missionaries, cannibals, s.b), missionaries, cannibals, 1 - s.b) == s
  {
  }

  /** The removal test, branch by branch: a count off the board, then too many cannibals
      where missionaries are present on the starting bank, then on the far bank. */
  predicate Illegal(s: State)
  {
    if s.m < 0 || s.m > 3 then true
    else if s.c < 0 || s.c > 3 then true
    else if s.m < s.c && s.m > 0 then true
    else (3 - s.m) < (3 - s.c) && (3 - s.m) > 0
  }

  predicate Legal(s: State)
  {
    !Illegal(s)
  }

  /** A bank is safe when it has no missionaries or at least as many missionaries as cannibals. */
  predicate BankSafe(missionaries: int, cannibals: int)
  {
    missionaries == 0 || cannibals <= missionaries
  }

  /** The filter keeps exactly the states whose counts are in range and whose two banks are safe. */
  lemma LegalIsBothBanksSafe(s: State)
    ensures Legal(s) <==> 0 <= s.m <= 3 && 0 <= s.c <= 3 && BankSafe(s.m, s.c) && BankSafe(3 - s.m, 3 - s.c)
  {
  }

  /** A state the search may hold: legal, with the boat on one of the two banks. */
  predicate WellFormed(s: State)
  {
    Legal(s) && (s.b == 0 || s.b == 1)
  }

  /** The five children of `s`, one per load, before filtering. */
  function Candidates(s: State): seq<State>
  {
    seq(|Loads|, k requires 0 <= k < |Loads| => Move(s, Loads[k]))
  }

  /** The missionaries and cannibals a crossing from `s` to `t` carries, counted in the
      direction the boat travels. */
  function Carried(s: State, t: State): Load
  {
    if s.b == 1 then Load(s.m - t.m, s.c - t.c) else Load(t.m - s.m, t.c - s.c)
  }

  /** The five loads are exactly the boat loads of one or two people: a state is a
      candidate child exactly when the boat has crossed carrying such a load. */
  lemma CandidatesAreBoatLoads(s: State, t: State)
    requires s.b == 0 || s.b == 1
    ensures t in Candidates(s) <==>
      && t.b == 1 - s.b
      && Carried(s, t).missionaries >= 0 && Carried(s, t).cannibals >= 0
      && 1 <= Carried(s, t).missionaries + Carried(s, t).cannibals <= 2
  {
    var l := Carried(s, t);
    if t.b == 1 - s.b && l.missionaries >= 0 && l.cannibals >= 0 && 1 <= l.missionaries + l.cannibals <= 2 {
      var k := if l == Load(1, 0) then 0 else if l == Load(2, 0) then 1
        else if l == Load(0, 1) then 2 else if l == Load(0, 2) then 3 else 4;
      assert Loads[k] == l;
      assert Candidates(s)[k] == t;
    }
  }

  /** `xs` with the illegal states dropped, order kept. */
  function KeepLegal(xs: seq<State>): (r: seq<State>)
    ensures |r| <= |xs|
    ensures forall x {:trigger x in r} {:trigger x in xs} :: x in r <==> x in xs && Legal(x)
  {
    if xs == [] then []
    else if Legal(xs[0]) then [xs[0]] + KeepLegal(xs[1..])
    else KeepLegal(xs[1..])
  }

  /** The legal states one boat crossing away from `s`, in load order. */
  function Successors(s: State): seq<State>
  {
    KeepLegal(Candidates(s))
  }

  /** A state is a successor exactly when it is legal and some load produces it. */
  lemma SuccessorsAreLegalMoves(s: State, t: State)
    ensures t in Successors(s) <==> Legal(t) && exists k :: 0 <= k < |Loads| && t == Move(s, Loads[k])
  {
    if Legal(t) && exists k :: 0 <= k < |Loads| && t == Move(s, Loads[k]) {
      var k :| 0 <= k < |Loads| && t == Move(s, Loads[k]);
      assert Candidates(s)[k] == t;
    }
  }

  lemma MoveIsSuccessor(s: State, k: int)
    requires 0 <= k < |Loads|
    requires Legal(Move(s, Loads[k]))
    ensures Move(s, Loads[k]) in Successors(s)
  {
    assert Candidates(s)[k] == Move(s, Loads[k]);
  }

  /** Successors of a well-formed state are well formed and have the boat on the other bank. */
  lemma SuccessorsWellFormed(s: State, t: State)
    requires WellFormed(s)
    requires t in Successors(s)
    ensures WellFormed(t) && t.b == 1 - s.b
  {
    SuccessorsAreLegalMoves(s, t);
  }

  /** Every crossing can be undone: the successor relation is symmetric on well-formed states. */
  lemma {:induction false} SuccessorsReversible(s: State, t: State)
    requires WellFormed(s)
    requires t in Successors(s)
    ensures s in Successors(t)
  {
    SuccessorsAreLegalMoves(s, t);
    var k :| 0 <= k < |Loads| && t == Move(s, Loads[k]);
    CrossThereAndBack(s, Loads[k].missionaries, Loads[k].cannibals);
    assert Move(t, Loads[k]) == s;
    MoveIsSuccessor(t, k);
  }

  /** From the start, only one cannibal, two cannibals, or one of each can cross. */
  lemma StartSuccessors()
    ensures Successors(Start) == [State(3, 2, 0), State(3, 1, 0), State(2, 2, 0)]
  {
    assert Candidates(Start) == [State(2, 3, 0), State(1, 3, 0), State(3, 2, 0), State(3, 1, 0), State(2, 2, 0)];
  }

  /** A forward plan: from the start to the goal, each state a successor of the one before. */
  ghost predicate IsPlan(p: seq<State>)
  {
    && |p| >= 1
    && p[0] == Start
    && p[|p| - 1] == Goal
    && forall j :: 0 <= j < |p| - 1 ==> p[j + 1] in Successors(p[j])
  }

  /** The classic eleven-crossing solution. */
  const KnownPlan: seq<State> := [
    State(3, 3, 1), State(3, 1, 0), State(3, 2, 1), State(3, 0, 0),
    State(3, 1, 1), State(1, 1, 0), State(2, 2, 1), State(0, 2, 0),
    State(0, 3, 1), State(0, 1, 0), State(0, 2, 1), State(0, 0, 0)]

  /** The load (an index into `Loads`) used for each crossing of `KnownPlan`. */
  const KnownLoads: seq<int> := [3, 2, 3, 2, 1, 4, 1, 2, 3, 2, 3]

  lemma KnownPlanIsPlan()
    ensures IsPlan(KnownPlan)
  {
    var p := KnownPlan;
    forall j | 0 <= j < |p| - 1
      ensures p[j + 1] in Successors(p[j])
    {
      var k := KnownLoads[j];
      assert Move(p[j], Loads[k]) == p[j + 1] && Legal(p[j + 1]) by {
        assert j in {0, 1, 2, 3, 4, 5, 6, 7, 8, 9, 10};
      }
      MoveIsSuccessor(p[j], k);
    }
  }

  /** A set of states that no crossing leads out of. */
  ghost predicate ClosedUnderSuccessors(e: set<State>)
  {
    forall s, t {:trigger t in Successors(s)} :: s in e && t in Successors(s) ==> t in e
  }

  /** A plan that begins in a closed set never leaves it. */
  lemma {:induction false} PlanStaysInClosedSet(e: set<State>, p: seq<State>, n: int)
    requires ClosedUnderSuccessors(e)
    requires |p| >= 1 && p[0] in e
    requires forall j :: 0 <= j < |p| - 1 ==> p[j + 1] in Successors(p[j])
    requires 0 <= n < |p|
    ensures p[n] in e
  {
    if n > 0 {
      PlanStaysInClosedSet(e, p, n - 1);
      assert p[n] in Successors(p[n - 1]);
    }
  }

  /** Any closed set that holds the start holds the goal: exhausting the reachable
      states without meeting the goal is impossible. */
  lemma ClosedSetReachesGoal(e: set<State>)
    requires ClosedUnderSuccessors(e)
    requires Start in e
    ensures Goal in e
  {
    KnownPlanIsPlan();
    PlanStaysInClosedSet(e, KnownPlan, |KnownPlan| - 1);
  }

  /** The 32 in-range triples: both counts in 0..3 and the boat bit 0 or 1. Every
      well-formed state is one of them; not all of them are legal. */
  ghost function Universe(): set<State>
  {
    set m: int, c: int, b: int | 0 <= m <= 3 && 0 <= c <= 3 && 0 <= b <= 1 :: State(m, c, b)
  }

  lemma WellFormedInUniverse(s: State)
    requires WellFormed(s)
    ensures s in Universe()
  {
    assert s == State(s.m, s.c, s.b);
  }

  /** The in-range triples with boat bit `b`. */
  ghost function BankSide(b: int): set<State>
  {
    set m: int, c: int | 0 <= m <= 3 && 0 <= c <= 3 :: State(m, c, b)
  }

  /** The four in-range triples with `m` missionaries on the starting bank and boat bit `b`. */
  ghost function Row(m: int, b: int): set<State>
  {
    {State(m, 0, b), State(m, 1, b), State(m, 2, b), State(m, 3, b)}
  }

  lemma RowSize(m: int, b: int)
    ensures |Row(m, b)| == 4
    ensures forall s :: s in Row(m, b) ==> s.m == m
  {
  }

  lemma DisjointUnionSize(x: set<State>, y: set<State>)
    requires forall s :: s in x ==> s !in y
    ensures |x + y| == |x| + |y|
  {
    assert x * y == {};
  }

  lemma BankSideIsRows(b: int)
    ensures BankSide(b) == Row(0, b) + Row(1, b) + Row(2, b) + Row(3, b)
  {
    forall s | s in BankSide(b)
      ensures s in Row(0, b) + Row(1, b) + Row(2, b) + Row(3, b)
    {
      assert s in Row(s.m, b);
    }
    forall s | s in Row(0, b) + Row(1, b) + Row(2, b) + Row(3, b)
      ensures s in BankSide(b)
    {
      assert s == State(s.m, s.c, b);
    }
  }

  /** With the boat bit fixed there are 16 in-range triples, four per missionary count. */
  lemma BankSideSize(b: int)
    ensures |BankSide(b)| == 16
  {
    RowSize(0, b);
    RowSize(1, b);
    RowSize(2, b);
    RowSize(3, b);
    DisjointUnionSize(Row(0, b), Row(1, b));
    DisjointUnionSize(Row(0, b) + Row(1, b), Row(2, b));
    DisjointUnionSize(Row(0, b) + Row(1, b) + Row(2, b), Row(3, b));
    BankSideIsRows(b);
  }

  /** There are 32 in-range triples: 16 with the boat on each side. */
  lemma UniverseSize()
    ensures |Universe()| == 32
  {
    BankSideSize(0);
    BankSideSize(1);
    assert Universe() == BankSide(0) + BankSide(1);
    assert forall s :: s in BankSide(0) ==> s.b == 0;
    DisjointUnionSize(BankSide(0), BankSide(1));
  }
}
