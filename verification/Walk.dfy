/** The breadth-first walk over the relation table (crates/ft-index/src/index.rs, `dependency_walk`). */
module Walk {
  import opened Records

  datatype Direction = Upstream | Downstream | Both

  datatype DepEdge = DepEdge(edge: Edge, depth: nat)

  /** Whether a walk in the direction crosses `e` when it is at `v`. */
  predicate Leaves(dir: Direction, e: Edge, v: string) {
    match dir
    case Upstream => e.from == v && e.kind == BlockedBy
    case Downstream => e.to == v && e.kind == BlockedBy
    case Both => (e.from == v || e.to == v) && e.kind in {BlockedBy, Blocks, ParentOf, ChildOf}
  }

  /** Where the walk then is. */
  function Next(dir: Direction, e: Edge, v: string): string {
    match dir
    case Upstream => e.to
    case Downstream => e.from
    case Both => if e.from == v then e.to else e.from
  }

  /** The relation table, and where and which way the walk goes. */
  datatype Graph = Graph(rel: set<Edge>, dir: Direction, root: string)

  /** The records at most `n` steps from the root. */
  ghost function Within(g: Graph, n: nat): set<string> {
    if n == 0 then {g.root}
    else
      var w := Within(g, n - 1);
      w + set e, v | e in g.rel && v in w && Leaves(g.dir, e, v) :: Next(g.dir, e, v)
  }

  /** Shortest distance exactly `n`. */
  ghost predicate AtDistance(g: Graph, v: string, n: nat) {
    v in Within(g, n) && (n > 0 ==> v !in Within(g, n - 1))
  }

  /** The edge can be crossed from a record at most `n` steps away. */
  ghost predicate Touched(g: Graph, e: Edge, n: nat) {
    e in g.rel && exists v :: v in Within(g, n) && Leaves(g.dir, e, v)
  }

  /** The nearer endpoint of the edge is at shortest distance exactly `n`. */
  ghost predicate FoundAt(g: Graph, e: Edge, n: nat) {
    Touched(g, e, n) && (n > 0 ==> !Touched(g, e, n - 1))
  }

  ghost predicate DistinctEdges(out: seq<DepEdge>) {
    forall i, j :: 0 <= i < j < |out| ==> out[i].edge != out[j].edge
  }

  ghost predicate DepthsInOrder(out: seq<DepEdge>) {
    forall i, j :: 0 <= i < j < |out| ==> out[i].depth <= out[j].depth
  }

  ghost predicate Lists(out: seq<DepEdge>, e: Edge) {
    exists x :: x in out && x.edge == e
  }

  /** Each listed edge carries its distance plus one. */
  ghost predicate DepthsRight(g: Graph, maxDepth: nat, out: seq<DepEdge>) {
    forall x :: x in out ==> 1 <= x.depth <= maxDepth && FoundAt(g, x.edge, x.depth - 1)
  }

  /** Exactly the edges whose nearer endpoint is less than `maxDepth` away, each once, nearest first. */
  ghost predicate ExactWalk(g: Graph, maxDepth: nat, out: seq<DepEdge>) {
    && DistinctEdges(out) && DepthsInOrder(out) && DepthsRight(g, maxDepth, out)
    && forall e, n: nat :: n < maxDepth && Touched(g, e, n) ==> Lists(out, e)
  }

  lemma {:induction false} WithinGrows(g: Graph, m: nat, n: nat)
    requires m <= n
    ensures Within(g, m) <= Within(g, n)
    decreases n
  {
    if m < n {
      WithinGrows(g, m, n - 1);
    }
  }

  /** Crossing an edge goes one step further. */
  lemma StepIsWithin(g: Graph, n: nat, v: string, e: Edge)
    requires v in Within(g, n) && e in g.rel && Leaves(g.dir, e, v)
    ensures Next(g.dir, e, v) in Within(g, n + 1)
  {
  }

  lemma WithinNothing(g: Graph)
    ensures Within(g, 0) == {g.root}
  {
  }

  /** What is one step further was reached by crossing an edge. */
  lemma StepBack(g: Graph, n: nat, v: string) returns (e: Edge, u: string)
    requires v in Within(g, n + 1) && v !in Within(g, n)
    ensures e in g.rel && u in Within(g, n) && Leaves(g.dir, e, u) && Next(g.dir, e, u) == v
  {
    hide Leaves, Next;
    e, u :| e in g.rel && u in Within(g, n) && Leaves(g.dir, e, u) && Next(g.dir, e, u) == v;
  }

  /** The edges of `p`, crossed one after the other from the root, lead to `v`. */
  ghost predicate LeadsTo(g: Graph, p: seq<Edge>, v: string) {
    if p == [] then v == g.root
    else
      var e := p[|p| - 1];
      e in g.rel && exists u :: LeadsTo(g, p[..|p| - 1], u) && Leaves(g.dir, e, u) && Next(g.dir, e, u) == v
  }

  /** `Within` is what paths of that length reach. */
  lemma {:induction false} WithinIsPaths(g: Graph, v: string, n: nat)
    ensures v in Within(g, n) <==> exists p :: |p| <= n && LeadsTo(g, p, v)
  {
    if v in Within(g, n) {
      var p := PathWithin(g, v, n);
    }
    forall p | |p| <= n && LeadsTo(g, p, v)
      ensures v in Within(g, n)
    {
      PathStaysWithin(g, p, v);
      WithinGrows(g, |p|, n);
    }
  }

  lemma {:induction false} PathWithin(g: Graph, v: string, n: nat) returns (p: seq<Edge>)
    requires v in Within(g, n)
    ensures |p| <= n && LeadsTo(g, p, v)
    decreases n
  {
    hide Within, Leaves, Next;
    if n == 0 {
      WithinNothing(g);
      p := [];
    } else if v in Within(g, n - 1) {
      p := PathWithin(g, v, n - 1);
    } else {
      var e, u := StepBack(g, n - 1, v);
      var q := PathWithin(g, u, n - 1);
      p := q + [e];
      assert p[..|p| - 1] == q;
    }
  }

  lemma {:induction false} PathStaysWithin(g: Graph, p: seq<Edge>, v: string)
    requires LeadsTo(g, p, v)
    ensures v in Within(g, |p|)
  {
    if p != [] {
      var e := p[|p| - 1];
      var u :| LeadsTo(g, p[..|p| - 1], u) && Leaves(g.dir, e, u) && Next(g.dir, e, u) == v;
      PathStaysWithin(g, p[..|p| - 1], u);
      StepIsWithin(g, |p| - 1, u, e);
    }
  }

  // --- the steps by the rows of the table --------------------------------------------------------------------------

  /** One step: upstream to what `u` is blocked by, downstream to what is blocked by `u`, and both ways along a row of
      the four kinds, whichever end `u` is. */
  predicate Adjacent(rel: set<Edge>, dir: Direction, u: string, v: string) {
    match dir
    case Upstream => Edge(u, v, BlockedBy) in rel
    case Downstream => Edge(v, u, BlockedBy) in rel
    case Both =>
      || Edge(u, v, BlockedBy) in rel || Edge(u, v, Blocks) in rel
      || Edge(u, v, ParentOf) in rel || Edge(u, v, ChildOf) in rel
      || Edge(v, u, BlockedBy) in rel || Edge(v, u, Blocks) in rel
      || Edge(v, u, ParentOf) in rel || Edge(v, u, ChildOf) in rel
  }

  ghost predicate IsChain(rel: set<Edge>, dir: Direction, ids: seq<string>) {
    ids != [] && forall i :: 1 <= i < |ids| ==> Adjacent(rel, dir, ids[i - 1], ids[i])
  }

  lemma CrossingIsAdjacent(g: Graph, e: Edge, u: string)
    requires e in g.rel && Leaves(g.dir, e, u)
    ensures Adjacent(g.rel, g.dir, u, Next(g.dir, e, u))
  {
  }

  lemma AdjacentIsCrossed(g: Graph, u: string, v: string) returns (e: Edge)
    requires Adjacent(g.rel, g.dir, u, v)
    ensures e in g.rel && Leaves(g.dir, e, u) && Next(g.dir, e, u) == v
  {
    match g.dir
    case Upstream => e := Edge(u, v, BlockedBy);
    case Downstream => e := Edge(v, u, BlockedBy);
    case Both =>
      if k :| k in {BlockedBy, Blocks, ParentOf, ChildOf} && Edge(u, v, k) in g.rel {
        e := Edge(u, v, k);
      } else {
        var k :| k in {BlockedBy, Blocks, ParentOf, ChildOf} && Edge(v, u, k) in g.rel;
        e := Edge(v, u, k);
      }
  }

  lemma {:induction false} ChainStaysWithin(g: Graph, ids: seq<string>)
    requires IsChain(g.rel, g.dir, ids) && ids[0] == g.root
    ensures ids[|ids| - 1] in Within(g, |ids| - 1)
    decreases |ids|
  {
    hide Within, Adjacent, Leaves, Next;
    WithinNothing(g);
    var n := |ids| - 1;
    if n > 0 {
      ChainStaysWithin(g, ids[..n]);
      var e := AdjacentIsCrossed(g, ids[n - 1], ids[n]);
      StepIsWithin(g, n - 1, ids[n - 1], e);
    }
  }

  lemma {:induction false} ChainWithin(g: Graph, v: string, n: nat) returns (ids: seq<string>)
    requires v in Within(g, n)
    ensures IsChain(g.rel, g.dir, ids) && |ids| <= n + 1 && ids[0] == g.root && ids[|ids| - 1] == v
    decreases n
  {
    hide Within, Adjacent, Leaves, Next;
    WithinNothing(g);
    if n == 0 {
      ids := [v];
    } else if v in Within(g, n - 1) {
      ids := ChainWithin(g, v, n - 1);
    } else {
      var e, u := StepBack(g, n - 1, v);
      var before := ChainWithin(g, u, n - 1);
      CrossingIsAdjacent(g, e, u);
      ids := before + [v];
    }
  }

  /** A record is within `n` steps exactly if a chain of records, each adjacent to the one before, leads to it in so
      many. */
  lemma WithinIsChains(g: Graph, v: string, n: nat)
    ensures v in Within(g, n) <==>
            exists ids :: IsChain(g.rel, g.dir, ids) && |ids| <= n + 1 && ids[0] == g.root && ids[|ids| - 1] == v
  {
    hide Within;
    if v in Within(g, n) {
      var ids := ChainWithin(g, v, n);
    }
    forall ids | IsChain(g.rel, g.dir, ids) && |ids| <= n + 1 && ids[0] == g.root && ids[|ids| - 1] == v
      ensures v in Within(g, n)
    {
      ChainStaysWithin(g, ids);
      WithinGrows(g, |ids| - 1, n);
    }
  }

  // --- the directions ----------------------------------------------------------------------------------------------

  function Opposite(dir: Direction): Direction {
    match dir
    case Upstream => Downstream
    case Downstream => Upstream
    case Both => Both
  }

  lemma CrossingReverses(dir: Direction, e: Edge, v: string)
    requires Leaves(dir, e, v)
    ensures Leaves(Opposite(dir), e, Next(dir, e, v)) && Next(Opposite(dir), e, Next(dir, e, v)) == v
  {
  }

  /** What is `n` steps from a neighbour is at most one more step away. */
  lemma {:induction false} FrontStep(g: Graph, e: Edge, n: nat, v: string)
    requires e in g.rel && Leaves(g.dir, e, g.root) && v in Within(g.(root := Next(g.dir, e, g.root)), n)
    ensures v in Within(g, n + 1)
    decreases n
  {
    hide Within, Leaves, Next;
    var h := g.(root := Next(g.dir, e, g.root));
    WithinNothing(g);
    WithinNothing(h);
    if n == 0 {
      StepIsWithin(g, 0, g.root, e);
    } else if v in Within(h, n - 1) {
      FrontStep(g, e, n - 1, v);
      WithinGrows(g, n, n + 1);
    } else {
      var f, u := StepBack(h, n - 1, v);
      FrontStep(g, e, n - 1, u);
      StepIsWithin(g, n, u, f);
    }
  }

  /** Upstream of one is downstream of the other, at the same distance. */
  lemma DirectionsMirror(rel: set<Edge>, dir: Direction, u: string, v: string, n: nat)
    ensures v in Within(Graph(rel, dir, u), n) <==> u in Within(Graph(rel, Opposite(dir), v), n)
  {
    hide Within;
    if v in Within(Graph(rel, dir, u), n) {
      LeadsBack(rel, dir, u, v, n);
    }
    if u in Within(Graph(rel, Opposite(dir), v), n) {
      LeadsBack(rel, Opposite(dir), v, u, n);
    }
  }

  lemma {:induction false} LeadsBack(rel: set<Edge>, dir: Direction, u: string, v: string, n: nat)
    requires v in Within(Graph(rel, dir, u), n)
    ensures u in Within(Graph(rel, Opposite(dir), v), n)
    decreases n
  {
    hide Within, Leaves, Next, Opposite;
    var g, back := Graph(rel, dir, u), Graph(rel, Opposite(dir), v);
    WithinNothing(g);
    WithinNothing(back);
    if n > 0 {
      if v in Within(g, n - 1) {
        LeadsBack(rel, dir, u, v, n - 1);
        WithinGrows(back, n - 1, n);
      } else {
        var e, w := StepBack(g, n - 1, v);
        LeadsBack(rel, dir, u, w, n - 1);
        CrossingReverses(dir, e, w);
        FrontStep(back, e, n - 1, u);
      }
    }
  }

  lemma TouchedGrows(g: Graph, e: Edge, m: nat, n: nat)
    requires Touched(g, e, m) && m <= n
    ensures Touched(g, e, n)
  {
    hide Within, Leaves;
    WithinGrows(g, m, n);
  }

  lemma FoundOnce(g: Graph, e: Edge, m: nat, n: nat)
    requires FoundAt(g, e, n) && Touched(g, e, m)
    ensures n <= m
  {
    hide Touched;
    if m < n {
      TouchedGrows(g, e, m, n - 1);
    }
  }

  /** What is listed, and with what depth, in one condition. */
  lemma ExactWalkLists(g: Graph, maxDepth: nat, out: seq<DepEdge>, e: Edge, depth: nat)
    requires ExactWalk(g, maxDepth, out)
    ensures DepEdge(e, depth) in out <==> 1 <= depth <= maxDepth && FoundAt(g, e, depth - 1)
  {
    hide Within, DepthsInOrder, DistinctEdges;
    if 1 <= depth <= maxDepth && FoundAt(g, e, depth - 1) {
      assert Lists(out, e);
      var x :| x in out && x.edge == e;
      FoundOnce(g, e, x.depth - 1, depth - 1);
      FoundOnce(g, e, depth - 1, x.depth - 1);
      assert x == DepEdge(e, depth);
    }
  }

  /** The ends of a row a walk can cross it from: of `blocked-by` rows the one end or the other, of rows of the four
      kinds both when the walk goes both ways. */
  function Ends(dir: Direction, e: Edge): set<string> {
    match dir
    case Upstream => if e.kind == BlockedBy then {e.from} else {}
    case Downstream => if e.kind == BlockedBy then {e.to} else {}
    case Both =>
      if e.kind == BlockedBy || e.kind == Blocks || e.kind == ParentOf || e.kind == ChildOf then {e.from, e.to} else {}
  }

  /** A row is listed with a depth exactly if one of these ends is one step less away and none is nearer. */
  lemma ListedByEnds(g: Graph, maxDepth: nat, out: seq<DepEdge>, e: Edge, depth: nat)
    requires ExactWalk(g, maxDepth, out)
    ensures DepEdge(e, depth) in out <==>
            1 <= depth <= maxDepth && e in g.rel
            && (exists v :: v in Ends(g.dir, e) && v in Within(g, depth - 1))
            && (depth >= 2 ==> forall v :: v in Ends(g.dir, e) ==> v !in Within(g, depth - 2))
  {
    ExactWalkLists(g, maxDepth, out, e, depth);
    hide ExactWalk, Within;
    assert forall v :: Leaves(g.dir, e, v) <==> v in Ends(g.dir, e);
  }

  /** The order in which the table gives its rows does not change what is listed, nor the sequence of depths. */
  lemma WalkIsDetermined(g: Graph, maxDepth: nat, a: seq<DepEdge>, b: seq<DepEdge>)
    requires ExactWalk(g, maxDepth, a) && ExactWalk(g, maxDepth, b)
    ensures multiset(a) == multiset(b)
  {
    hide FoundAt, DistinctEdges, Touched;
    forall x: DepEdge
      ensures multiset(a)[x] == multiset(b)[x]
    {
      ExactWalkLists(g, maxDepth, a, x.edge, x.depth);
      ExactWalkLists(g, maxDepth, b, x.edge, x.depth);
      CountsOnce(a, x);
      CountsOnce(b, x);
    }
  }

  lemma {:induction false} CountsOnce(out: seq<DepEdge>, x: DepEdge)
    requires DistinctEdges(out)
    ensures multiset(out)[x] == if x in out then 1 else 0
  {
    if out != [] {
      var most := out[..|out| - 1];
      assert out == most + [out[|out| - 1]];
      assert forall i :: 0 <= i < |most| ==> most[i] == out[i];
      CountsOnce(most, x);
    }
  }

  /** From its other end, an edge leads back. */
  lemma OtherEnd(dir: Direction, e: Edge, u: string, v: string)
    requires Leaves(dir, e, u) && Leaves(dir, e, v) && u != v
    ensures Next(dir, e, v) == u
  {
  }

  // --- the state of the walk between two steps ---------------------------------------------------------------------

  type Queue = seq<(string, nat)>

  /** The four variables of the walk. */
  datatype State = State(queue: Queue, seenNodes: set<string>, seenEdges: set<Edge>, out: seq<DepEdge>)

  ghost function Waiting(queue: Queue): set<string> {
    set i | 0 <= i < |queue| :: queue[i].0
  }

  ghost predicate DistinctNodes(queue: Queue) {
    forall i, j :: 0 <= i < j < |queue| ==> queue[i].0 != queue[j].0
  }

  ghost predicate InOrder(queue: Queue) {
    forall i, j :: 0 <= i < j < |queue| ==> queue[i].1 <= queue[j].1
  }

  ghost predicate Between(queue: Queue, lo: nat, hi: nat) {
    forall i :: 0 <= i < |queue| ==> lo <= queue[i].1 <= hi
  }

  /** Each waiting record carries its shortest distance. */
  ghost predicate DistancesRight(g: Graph, queue: Queue) {
    forall i :: 0 <= i < |queue| ==> AtDistance(g, queue[i].0, queue[i].1)
  }

  /** A record that is near enough for its edges to be listed. */
  ghost predicate Near(g: Graph, maxDepth: nat, v: string) {
    maxDepth > 0 && v in Within(g, maxDepth - 1)
  }

  /** The edges of a near record that is done are seen, and so is where they lead. */
  ghost predicate Expanded(g: Graph, maxDepth: nat, done: set<string>, seenNodes: set<string>, seenEdges: set<Edge>) {
    forall v, e :: v in done && Near(g, maxDepth, v) && e in g.rel && Leaves(g.dir, e, v) ==>
      e in seenEdges && Next(g.dir, e, v) in seenNodes
  }

  /** An edge is seen only from a record that is done. */
  ghost predicate SeenFrom(g: Graph, done: set<string>, seenEdges: set<Edge>) {
    forall e :: e in seenEdges ==> e in g.rel && exists v :: v in done && Leaves(g.dir, e, v)
  }

  /** What is listed is what is seen. */
  ghost predicate Listed(out: seq<DepEdge>, seenEdges: set<Edge>) {
    && (forall x :: x in out ==> x.edge in seenEdges)
    && (forall e :: e in seenEdges ==> Lists(out, e))
  }

  ghost predicate NoDeeper(out: seq<DepEdge>, n: nat) {
    forall x :: x in out ==> x.depth <= n
  }

  /** All records the table speaks of. */
  function Nodes(g: Graph): set<string> {
    {g.root} + (set e | e in g.rel :: e.from) + (set e | e in g.rel :: e.to)
  }

  /** The bookkeeping of the four variables. */
  ghost predicate Tidy(g: Graph, done: set<string>, s: State) {
    && g.root in s.seenNodes && s.seenNodes <= Nodes(g)
    && s.seenNodes == done + Waiting(s.queue) && done !! Waiting(s.queue) && DistinctNodes(s.queue)
    && Listed(s.out, s.seenEdges) && DistinctEdges(s.out) && SeenFrom(g, done, s.seenEdges)
  }

  /** The distances: the queue holds the rest of a level, then the next level. */
  ghost predicate OnLevel(g: Graph, maxDepth: nat, s: State, level: nat) {
    && level <= maxDepth && Within(g, level) <= s.seenNodes
    && InOrder(s.queue) && Between(s.queue, level, level + 1) && Between(s.queue, 0, maxDepth)
    && DistancesRight(g, s.queue)
    && NoDeeper(s.out, level + 1) && DepthsInOrder(s.out) && DepthsRight(g, maxDepth, s.out)
  }

  // --- the end of the walk -----------------------------------------------------------------------------------------

  lemma WithinNextLevel(g: Graph, maxDepth: nat, done: set<string>, seenNodes: set<string>, seenEdges: set<Edge>,
                        level: nat)
    requires level < maxDepth && Within(g, level) <= done <= seenNodes
    requires Expanded(g, maxDepth, done, seenNodes, seenEdges)
    ensures Within(g, level + 1) <= seenNodes
  {
    WithinGrows(g, level, maxDepth - 1);
    var w := Within(g, level);
    assert forall v :: v in w ==> Near(g, maxDepth, v);
  }

  /** A closed set of done records holds everything near. */
  lemma {:induction false} ClosedCoversWithin(g: Graph, maxDepth: nat, done: set<string>, seenEdges: set<Edge>, n: nat)
    requires g.root in done && n < maxDepth && Expanded(g, maxDepth, done, done, seenEdges)
    ensures Within(g, n) <= done
  {
    if n > 0 {
      ClosedCoversWithin(g, maxDepth, done, seenEdges, n - 1);
      WithinNextLevel(g, maxDepth, done, done, seenEdges, n - 1);
    }
  }

  /** When the queue is empty, every edge that can be crossed is listed. */
  lemma EmptyQueueIsComplete(g: Graph, maxDepth: nat, done: set<string>, s: State, e: Edge, n: nat)
    requires g.root in done && Expanded(g, maxDepth, done, done, s.seenEdges) && Listed(s.out, s.seenEdges)
    requires n < maxDepth && Touched(g, e, n)
    ensures Lists(s.out, e)
  {
    hide Within;
    var v :| v in Within(g, n) && Leaves(g.dir, e, v);
    ClosedCoversWithin(g, maxDepth, done, s.seenEdges, n);
    WithinGrows(g, n, maxDepth - 1);
    assert Near(g, maxDepth, v);
  }

  lemma EmptyQueueIsExact(g: Graph, maxDepth: nat, done: set<string>, s: State, level: nat)
    requires s.queue == [] && Tidy(g, done, s) && OnLevel(g, maxDepth, s, level)
    requires Expanded(g, maxDepth, done, s.seenNodes, s.seenEdges)
    ensures ExactWalk(g, maxDepth, s.out)
  {
    hide Within, FoundAt, AtDistance, Leaves;
    assert s.seenNodes == done;
    forall e, n: nat | n < maxDepth && Touched(g, e, n)
      ensures Lists(s.out, e)
    {
      EmptyQueueIsComplete(g, maxDepth, done, s, e, n);
    }
  }

  // --- from one level to the next ----------------------------------------------------------------------------------

  /** Waiting records are beyond every earlier level. */
  lemma WaitingIsFar(g: Graph, queue: Queue, n: nat, hi: nat)
    requires DistancesRight(g, queue) && Between(queue, n + 1, hi)
    ensures Waiting(queue) !! Within(g, n)
  {
    hide Within;
    forall i | 0 <= i < |queue|
      ensures queue[i].0 !in Within(g, n)
    {
      assert AtDistance(g, queue[i].0, queue[i].1);
      WithinGrows(g, n, queue[i].1 - 1);
    }
  }

  /** When a level is used up, everything one step further has been seen. */
  lemma LevelAdvances(g: Graph, maxDepth: nat, done: set<string>, s: State, level: nat)
    requires Tidy(g, done, s) && OnLevel(g, maxDepth, s, level) && s.queue != [] && s.queue[0].1 != level
    requires Expanded(g, maxDepth, done, s.seenNodes, s.seenEdges)
    ensures OnLevel(g, maxDepth, s, level + 1) && s.queue[0].1 == level + 1
  {
    hide Within, AtDistance, DepthsRight, Expanded, DepthsInOrder;
    assert Between(s.queue, level + 1, level + 1);
    WaitingIsFar(g, s.queue, level, level + 1);
    WithinNextLevel(g, maxDepth, done, s.seenNodes, s.seenEdges, level);
  }

  // --- one record expanded -----------------------------------------------------------------------------------------

  /** The record comes after everything waiting, one step from `cur` and not seen before. */
  ghost predicate Reached(dir: Direction, cur: string, rows: seq<Edge>, s0: State, added: Queue, depth: nat) {
    && DistinctNodes(added) && Between(added, depth, depth)
    && (forall v :: v in Waiting(added) ==>
          v !in s0.seenNodes && exists e :: e in rows && e !in s0.seenEdges && Next(dir, e, cur) == v)
    && (forall e :: e in rows && e !in s0.seenEdges ==> Next(dir, e, cur) in s0.seenNodes + Waiting(added))
  }

  /** The edges of `rows` not seen before are listed, once. */
  ghost predicate Fresh(rows: seq<Edge>, s0: State, listed: seq<DepEdge>, depth: nat) {
    && DistinctEdges(listed)
    && (forall x :: x in listed ==> x.edge in rows && x.edge !in s0.seenEdges && x.depth == depth)
    && (forall e :: e in rows && e !in s0.seenEdges ==> Lists(listed, e))
  }

  /** What the rows of `cur` add to the four variables. */
  ghost predicate Grown(dir: Direction, cur: string, depth: nat, rows: seq<Edge>, s0: State,
                        added: Queue, listed: seq<DepEdge>, s: State) {
    && s.queue == s0.queue + added && s.seenNodes == s0.seenNodes + Waiting(added)
    && s.out == s0.out + listed && s.seenEdges == s0.seenEdges + (set e | e in rows)
    && Reached(dir, cur, rows, s0, added, depth + 1) && Fresh(rows, s0, listed, depth + 1)
  }

  lemma WaitingAppends(queue: Queue, more: Queue)
    ensures Waiting(queue + more) == Waiting(queue) + Waiting(more)
  {
    var both := queue + more;
    forall v | v in Waiting(queue) + Waiting(more)
      ensures v in Waiting(both)
    {
      if v in Waiting(queue) {
        var i :| 0 <= i < |queue| && queue[i].0 == v;
        assert both[i].0 == v;
      } else {
        var i :| 0 <= i < |more| && more[i].0 == v;
        assert both[|queue| + i].0 == v;
      }
    }
  }

  lemma FreshSkips(rows: seq<Edge>, s0: State, listed: seq<DepEdge>, depth: nat, e: Edge)
    requires Fresh(rows, s0, listed, depth) && (e in s0.seenEdges || e in rows)
    ensures Fresh(rows + [e], s0, listed, depth)
  {
    hide Lists, DistinctEdges;
  }

  lemma FreshLists(rows: seq<Edge>, s0: State, listed: seq<DepEdge>, depth: nat, e: Edge)
    requires Fresh(rows, s0, listed, depth) && e !in s0.seenEdges && e !in rows
    ensures Fresh(rows + [e], s0, listed + [DepEdge(e, depth)], depth)
  {
    var x := DepEdge(e, depth);
    assert x in listed + [x];
    forall a | a in rows + [e] && a !in s0.seenEdges
      ensures Lists(listed + [x], a)
    {
      if a in rows {
        var y :| y in listed && y.edge == a;
        assert y in listed + [x];
      }
    }
  }

  lemma ReachedSkips(dir: Direction, cur: string, rows: seq<Edge>, s0: State, added: Queue, depth: nat, e: Edge)
    requires Reached(dir, cur, rows, s0, added, depth)
    requires e in s0.seenEdges || Next(dir, e, cur) in s0.seenNodes + Waiting(added)
    ensures Reached(dir, cur, rows + [e], s0, added, depth)
  {
    hide DistinctNodes, Between, Waiting, Next;
    forall v | v in Waiting(added)
      ensures v !in s0.seenNodes && exists a :: a in rows + [e] && a !in s0.seenEdges && Next(dir, a, cur) == v
    {
      var a :| a in rows && a !in s0.seenEdges && Next(dir, a, cur) == v;
      assert a in rows + [e];
    }
  }

  lemma ReachedGrows(dir: Direction, cur: string, rows: seq<Edge>, s0: State, added: Queue, depth: nat, e: Edge,
                     next: string)
    requires Reached(dir, cur, rows, s0, added, depth) && e !in s0.seenEdges && next == Next(dir, e, cur)
    requires next !in s0.seenNodes + Waiting(added)
    ensures Reached(dir, cur, rows + [e], s0, added + [(next, depth)], depth)
  {
    hide Next;
    var more: Queue := [(next, depth)];
    WaitingAppends(added, more);
    WaitingOfOne(next, depth);
    assert DistinctNodes(added + more) by {
      assert forall i :: 0 <= i < |added| ==> added[i].0 in Waiting(added);
    }
    forall v | v in Waiting(added + more)
      ensures v !in s0.seenNodes && exists a :: a in rows + [e] && a !in s0.seenEdges && Next(dir, a, cur) == v
    {
      if v == next {
        assert e in rows + [e];
      } else {
        var a :| a in rows && a !in s0.seenEdges && Next(dir, a, cur) == v;
        assert a in rows + [e];
      }
    }
  }

  lemma NothingGrown(dir: Direction, cur: string, depth: nat, s0: State)
    ensures Grown(dir, cur, depth, [], s0, [], [], s0)
  {
    var none: seq<Edge> := [];
    assert (set e | e in none) == {};
  }

  lemma RowsAppend(rows: seq<Edge>, e: Edge)
    ensures (set a | a in rows + [e]) == (set a | a in rows) + {e}
  {
  }

  lemma GrownSkips(dir: Direction, cur: string, depth: nat, rows: seq<Edge>, s0: State,
                   added: Queue, listed: seq<DepEdge>, s: State, e: Edge)
    requires Grown(dir, cur, depth, rows, s0, added, listed, s) && e in s.seenEdges
    ensures Grown(dir, cur, depth, rows + [e], s0, added, listed, s)
  {
    RowsAppend(rows, e);
    if e !in s0.seenEdges {
      assert e in rows;
      assert Next(dir, e, cur) in s0.seenNodes + Waiting(added);
    }
    hide Fresh, Reached;
    FreshSkips(rows, s0, listed, depth + 1, e);
    ReachedSkips(dir, cur, rows, s0, added, depth + 1, e);
  }

  lemma GrownVisits(dir: Direction, cur: string, depth: nat, rows: seq<Edge>, s0: State,
                    added: Queue, listed: seq<DepEdge>, s: State, e: Edge, next: string)
    requires Grown(dir, cur, depth, rows, s0, added, listed, s) && e !in s.seenEdges && next == Next(dir, e, cur)
    ensures next in s.seenNodes ==>
      Grown(dir, cur, depth, rows + [e], s0, added, listed + [DepEdge(e, depth + 1)],
            s.(seenEdges := s.seenEdges + {e}, out := s.out + [DepEdge(e, depth + 1)]))
    ensures next !in s.seenNodes ==>
      Grown(dir, cur, depth, rows + [e], s0, added + [(next, depth + 1)], listed + [DepEdge(e, depth + 1)],
            State(s.queue + [(next, depth + 1)], s.seenNodes + {next},
                  s.seenEdges + {e}, s.out + [DepEdge(e, depth + 1)]))
  {
    hide Fresh, Reached, Next;
    RowsAppend(rows, e);
    FreshLists(rows, s0, listed, depth + 1, e);
    if next in s.seenNodes {
      ReachedSkips(dir, cur, rows, s0, added, depth + 1, e);
    } else {
      ReachedGrows(dir, cur, rows, s0, added, depth + 1, e, next);
      WaitingAppends(added, [(next, depth + 1)]);
      WaitingOfOne(next, depth + 1);
    }
  }

  lemma WaitingOfOne(v: string, d: nat)
    ensures Waiting([(v, d)]) == {v}
  {
    var queue: Queue := [(v, d)];
    assert queue[0].0 == v;
  }

  /** `step_edges`: the rows the walk crosses from `cur`, in whatever order the table gives them. */
  method StepEdges(rel: set<Edge>, cur: string, dir: Direction) returns (rows: seq<Edge>)
    ensures forall e :: e in rows <==> e in rel && Leaves(dir, e, cur)
    ensures forall i, j :: 0 <= i < j < |rows| ==> rows[i] != rows[j]
  {
    rows := [];
    var left := set e | e in rel && Leaves(dir, e, cur);
    while left != {}
      invariant forall e :: e in rel && Leaves(dir, e, cur) <==> e in left || e in rows
      invariant forall e :: e in left ==> e !in rows
      invariant forall i, j :: 0 <= i < j < |rows| ==> rows[i] != rows[j]
    {
      var e :| e in left;
      rows, left := rows + [e], left - {e};
    }
  }

  /** The loop over the rows of one record. */
  method ExpandRecord(rows: seq<Edge>, cur: string, depth: nat, dir: Direction,
                      queue0: Queue, nodes0: set<string>, edges0: set<Edge>, out0: seq<DepEdge>)
    returns (queue: Queue, seenNodes: set<string>, seenEdges: set<Edge>, out: seq<DepEdge>)
    ensures exists added, listed ::
      Grown(dir, cur, depth, rows, State(queue0, nodes0, edges0, out0), added, listed,
            State(queue, seenNodes, seenEdges, out))
  {
    hide Fresh, Reached, Waiting, Leaves;
    queue, seenNodes, seenEdges, out := queue0, nodes0, edges0, out0;
    ghost var s0 := State(queue0, nodes0, edges0, out0);
    ghost var added: Queue, listed: seq<DepEdge> := [], [];
    NothingGrown(dir, cur, depth, s0);
    for i := 0 to |rows|
      invariant Grown(dir, cur, depth, rows[..i], s0, added, listed, State(queue, seenNodes, seenEdges, out))
    {
      var edge := rows[i];
      assert rows[..i + 1] == rows[..i] + [edge];
      ghost var s := State(queue, seenNodes, seenEdges, out);
      if edge in seenEdges {
        GrownSkips(dir, cur, depth, rows[..i], s0, added, listed, s, edge);
        continue;
      }
      seenEdges := seenEdges + {edge};
      var next := Next(dir, edge, cur);
      out := out + [DepEdge(edge, depth + 1)];
      ghost var unseen := next !in seenNodes;
      if next !in seenNodes {
        seenNodes := seenNodes + {next};
        queue := queue + [(next, depth + 1)];
      }
      GrownVisits(dir, cur, depth, rows[..i], s0, added, listed, s, edge, next);
      listed := listed + [DepEdge(edge, depth + 1)];
      added := if unseen then added + [(next, depth + 1)] else added;
    }
    assert rows[..|rows|] == rows;
  }

  // --- a step of the walk keeps its invariant ----------------------------------------------------------------------

  /** The rows of `cur`, all of them. */
  ghost predicate AllRows(g: Graph, cur: string, rows: seq<Edge>) {
    forall e :: e in rows <==> e in g.rel && Leaves(g.dir, e, cur)
  }

  /** The first of the queue is taken off. */
  ghost predicate Popped(g: Graph, maxDepth: nat, done: set<string>, s: State, cur: string, level: nat) {
    && s.queue != [] && s.queue[0] == (cur, level)
    && Tidy(g, done, s) && OnLevel(g, maxDepth, s, level) && Expanded(g, maxDepth, done, s.seenNodes, s.seenEdges)
  }

  lemma HeadIsNew(g: Graph, done: set<string>, s: State)
    requires Tidy(g, done, s) && s.queue != []
    ensures s.queue[0].0 !in done && s.queue[0].0 in Nodes(g)
    ensures Waiting(s.queue) == {s.queue[0].0} + Waiting(s.queue[1..]) && s.queue[0].0 !in Waiting(s.queue[1..])
  {
    assert s.queue == [s.queue[0]] + s.queue[1..];
    WaitingAppends([s.queue[0]], s.queue[1..]);
    WaitingOfOne(s.queue[0].0, s.queue[0].1);
  }

  /** Too deep to expand: nothing but the queue changes. */
  lemma TooDeepKeeps(g: Graph, maxDepth: nat, done: set<string>, s: State, cur: string)
    requires Popped(g, maxDepth, done, s, cur, maxDepth)
    ensures Tidy(g, done + {cur}, s.(queue := s.queue[1..]))
    ensures OnLevel(g, maxDepth, s.(queue := s.queue[1..]), maxDepth)
    ensures Expanded(g, maxDepth, done + {cur}, s.seenNodes, s.seenEdges)
  {
    hide Within, Listed, DepthsRight, Leaves, Next, DepthsInOrder;
    HeadIsNew(g, done, s);
    assert AtDistance(g, cur, maxDepth);
  }

  /** Every crossing from `cur` ends at a seen record. */
  lemma CrossingsSeen(g: Graph, done: set<string>, s0: State, cur: string, level: nat, rows: seq<Edge>,
                      added: Queue, listed: seq<DepEdge>, s: State, e: Edge)
    requires SeenFrom(g, done, s0.seenEdges) && done <= s0.seenNodes && cur !in done && AllRows(g, cur, rows)
    requires Grown(g.dir, cur, level, rows, s0, added, listed, s) && e in g.rel && Leaves(g.dir, e, cur)
    ensures e in s.seenEdges && Next(g.dir, e, cur) in s.seenNodes
  {
    assert e in rows;
    if e in s0.seenEdges {
      var v :| v in done && Leaves(g.dir, e, v);
      OtherEnd(g.dir, e, v, cur);
    }
  }

  lemma ExpandedGrows(g: Graph, maxDepth: nat, done: set<string>, s0: State, cur: string, level: nat, rows: seq<Edge>,
                      added: Queue, listed: seq<DepEdge>, s: State)
    requires Expanded(g, maxDepth, done, s0.seenNodes, s0.seenEdges)
    requires SeenFrom(g, done, s0.seenEdges) && done <= s0.seenNodes && cur !in done && AllRows(g, cur, rows)
    requires Grown(g.dir, cur, level, rows, s0, added, listed, s)
    ensures Expanded(g, maxDepth, done + {cur}, s.seenNodes, s.seenEdges)
  {
    hide Reached, Fresh, Leaves, Next, SeenFrom, Near;
    forall v, e | v in done + {cur} && Near(g, maxDepth, v) && e in g.rel && Leaves(g.dir, e, v)
      ensures e in s.seenEdges && Next(g.dir, e, v) in s.seenNodes
    {
      if v == cur {
        CrossingsSeen(g, done, s0, cur, level, rows, added, listed, s, e);
      }
    }
  }

  lemma SeenFromGrows(g: Graph, done: set<string>, s0: State, cur: string, level: nat, rows: seq<Edge>,
                      added: Queue, listed: seq<DepEdge>, s: State)
    requires SeenFrom(g, done, s0.seenEdges) && AllRows(g, cur, rows)
    requires Grown(g.dir, cur, level, rows, s0, added, listed, s)
    ensures SeenFrom(g, done + {cur}, s.seenEdges)
  {
    hide Reached, Fresh, Leaves;
    forall e | e in s.seenEdges
      ensures e in g.rel && exists v :: v in done + {cur} && Leaves(g.dir, e, v)
    {
      if e in rows {
        assert cur in done + {cur};
      } else {
        var v :| v in done && Leaves(g.dir, e, v);
        assert v in done + {cur};
      }
    }
  }

  lemma ListedGrows(s0: State, dir: Direction, cur: string, level: nat, rows: seq<Edge>,
                    added: Queue, listed: seq<DepEdge>, s: State)
    requires Listed(s0.out, s0.seenEdges) && DistinctEdges(s0.out) && Grown(dir, cur, level, rows, s0, added, listed, s)
    ensures Listed(s.out, s.seenEdges) && DistinctEdges(s.out)
  {
    hide Reached;
    forall e | e in s.seenEdges
      ensures Lists(s.out, e)
    {
      if e in s0.seenEdges {
        var x :| x in s0.out && x.edge == e;
        assert x in s.out;
      } else {
        assert Lists(listed, e);
        var x :| x in listed && x.edge == e;
        assert x in s.out;
      }
    }
    forall i, j | 0 <= i < j < |s.out|
      ensures s.out[i].edge != s.out[j].edge
    {
      if i < |s0.out| <= j {
        assert s.out[i] in s0.out && s.out[j] in listed;
      }
    }
  }

  lemma QueueGrows(g: Graph, done: set<string>, s0: State, cur: string, level: nat, rows: seq<Edge>,
                   added: Queue, listed: seq<DepEdge>, s: State)
    requires s0.seenNodes == done + {cur} + Waiting(s0.queue) && (done + {cur}) !! Waiting(s0.queue)
    requires DistinctNodes(s0.queue) && s0.seenNodes <= Nodes(g) && AllRows(g, cur, rows)
    requires Grown(g.dir, cur, level, rows, s0, added, listed, s)
    ensures s.seenNodes == done + {cur} + Waiting(s.queue) && (done + {cur}) !! Waiting(s.queue)
    ensures DistinctNodes(s.queue) && s.seenNodes <= Nodes(g)
  {
    hide Fresh, Leaves;
    WaitingAppends(s0.queue, added);
    forall i, j | 0 <= i < j < |s.queue|
      ensures s.queue[i].0 != s.queue[j].0
    {
      if i < |s0.queue| <= j {
        assert s0.queue[i].0 in Waiting(s0.queue) && added[j - |s0.queue|].0 in Waiting(added);
      }
    }
    forall v | v in Waiting(added)
      ensures v in Nodes(g)
    {
      var e :| e in rows && e !in s0.seenEdges && Next(g.dir, e, cur) == v;
      assert e in g.rel;
    }
  }

  /** A record first reached from the present level lies exactly one step further. */
  lemma AddedIsNext(g: Graph, s0: State, cur: string, level: nat, rows: seq<Edge>, added: Queue)
    requires AtDistance(g, cur, level) && Within(g, level) <= s0.seenNodes && AllRows(g, cur, rows)
    requires Reached(g.dir, cur, rows, s0, added, level + 1)
    ensures DistancesRight(g, added)
  {
    hide Within, Leaves, Next, DistinctNodes;
    forall i | 0 <= i < |added|
      ensures AtDistance(g, added[i].0, added[i].1)
    {
      assert added[i].0 in Waiting(added);
      var e :| e in rows && e !in s0.seenEdges && Next(g.dir, e, cur) == added[i].0;
      StepIsWithin(g, level, cur, e);
    }
  }

  /** An edge crossed for the first time from the present level cannot be crossed from an earlier one. */
  lemma FreshEdgeIsFar(g: Graph, maxDepth: nat, done: set<string>, s: State, cur: string, level: nat, e: Edge)
    requires Popped(g, maxDepth, done, s, cur, level) && 0 < level < maxDepth && e !in s.seenEdges
    ensures !Touched(g, e, level - 1)
  {
    hide Within, Leaves, Next, Listed, DepthsRight, DepthsInOrder, SeenFrom;
    WaitingIsFar(g, s.queue, level - 1, level + 1);
    WithinGrows(g, level - 1, level);
    WithinGrows(g, level - 1, maxDepth - 1);
    assert forall v :: v in Within(g, level - 1) ==> v in done && Near(g, maxDepth, v);
  }

  lemma DepthsGrow(g: Graph, maxDepth: nat, done: set<string>, s0: State, cur: string, level: nat, rows: seq<Edge>,
                   listed: seq<DepEdge>)
    requires Popped(g, maxDepth, done, s0, cur, level) && level < maxDepth && AllRows(g, cur, rows)
    requires Fresh(rows, s0, listed, level + 1)
    ensures DepthsRight(g, maxDepth, s0.out + listed) && DepthsInOrder(s0.out + listed)
    ensures NoDeeper(s0.out + listed, level + 1)
  {
    hide Within, Leaves, Expanded, Tidy;
    assert AtDistance(g, cur, level);
    forall x | x in listed
      ensures FoundAt(g, x.edge, level)
    {
      assert Touched(g, x.edge, level);
      if level > 0 {
        FreshEdgeIsFar(g, maxDepth, done, s0, cur, level, x.edge);
      }
    }
    hide FoundAt;
    var out := s0.out + listed;
    assert forall i :: 0 <= i < |out| ==> out[i] in s0.out || out[i] in listed;
  }

  /** The record is expanded. */
  lemma ExpansionKeeps(g: Graph, maxDepth: nat, done: set<string>, s0: State, cur: string, level: nat, rows: seq<Edge>,
                       added: Queue, listed: seq<DepEdge>, s: State)
    requires Popped(g, maxDepth, done, s0, cur, level) && level < maxDepth && AllRows(g, cur, rows)
    requires Grown(g.dir, cur, level, rows, s0.(queue := s0.queue[1..]), added, listed, s)
    ensures Tidy(g, done + {cur}, s) && OnLevel(g, maxDepth, s, level)
    ensures Expanded(g, maxDepth, done + {cur}, s.seenNodes, s.seenEdges)
  {
    ExpansionTidy(g, maxDepth, done, s0, cur, level, rows, added, listed, s);
    ExpansionOnLevel(g, maxDepth, done, s0, cur, level, rows, added, listed, s);
    hide Within, Leaves, Next, Listed, DepthsRight, DepthsInOrder, SeenFrom, Reached, Fresh, Expanded, DistancesRight;
    HeadIsNew(g, done, s0);
    ExpandedGrows(g, maxDepth, done, s0.(queue := s0.queue[1..]), cur, level, rows, added, listed, s);
  }

  lemma ExpansionTidy(g: Graph, maxDepth: nat, done: set<string>, s0: State, cur: string, level: nat, rows: seq<Edge>,
                      added: Queue, listed: seq<DepEdge>, s: State)
    requires Popped(g, maxDepth, done, s0, cur, level) && AllRows(g, cur, rows)
    requires Grown(g.dir, cur, level, rows, s0.(queue := s0.queue[1..]), added, listed, s)
    ensures Tidy(g, done + {cur}, s)
  {
    hide Within, Leaves, Next, Listed, DepthsRight, DepthsInOrder, SeenFrom, Reached, Fresh, Expanded, DistancesRight,
         DistinctEdges;
    var popped := s0.(queue := s0.queue[1..]);
    HeadIsNew(g, done, s0);
    SeenFromGrows(g, done, popped, cur, level, rows, added, listed, s);
    ListedGrows(popped, g.dir, cur, level, rows, added, listed, s);
    QueueGrows(g, done, popped, cur, level, rows, added, listed, s);
  }

  /** Behind the rest of the queue, records of the next level keep it in order. */
  lemma QueueLevels(g: Graph, maxDepth: nat, queue: Queue, added: Queue, level: nat)
    requires queue != [] && InOrder(queue) && Between(queue, level, level + 1) && Between(queue, 0, maxDepth)
    requires DistancesRight(g, queue) && DistancesRight(g, added) && Between(added, level + 1, level + 1)
    requires level < maxDepth
    ensures InOrder(queue[1..] + added) && Between(queue[1..] + added, level, level + 1)
    ensures Between(queue[1..] + added, 0, maxDepth) && DistancesRight(g, queue[1..] + added)
  {
    hide AtDistance;
  }

  lemma ExpansionOnLevel(g: Graph, maxDepth: nat, done: set<string>, s0: State, cur: string, level: nat,
                         rows: seq<Edge>, added: Queue, listed: seq<DepEdge>, s: State)
    requires Popped(g, maxDepth, done, s0, cur, level) && level < maxDepth && AllRows(g, cur, rows)
    requires Grown(g.dir, cur, level, rows, s0.(queue := s0.queue[1..]), added, listed, s)
    ensures OnLevel(g, maxDepth, s, level)
  {
    hide Within, Leaves, Next, Listed, DepthsRight, DepthsInOrder, SeenFrom, Fresh, Expanded, AtDistance, Tidy,
         NoDeeper, InOrder, DistinctNodes;
    FreshIgnoresQueue(rows, s0, s0.queue[1..], listed, level + 1);
    DepthsGrow(g, maxDepth, done, s0, cur, level, rows, listed);
    assert AtDistance(g, cur, level);
    AddedIsNext(g, s0.(queue := s0.queue[1..]), cur, level, rows, added);
    hide DistancesRight, Between;
    QueueLevels(g, maxDepth, s0.queue, added, level);
  }

  lemma FreshIgnoresQueue(rows: seq<Edge>, s: State, queue: Queue, listed: seq<DepEdge>, depth: nat)
    requires Fresh(rows, s.(queue := queue), listed, depth)
    ensures Fresh(rows, s, listed, depth)
  {
  }

  lemma LevelInRange(g: Graph, maxDepth: nat, s: State, level: nat)
    requires OnLevel(g, maxDepth, s, level)
    ensures level <= maxDepth
  {
  }

  lemma WalkStarts(g: Graph, maxDepth: nat)
    ensures Tidy(g, {}, State([(g.root, 0)], {g.root}, {}, []))
    ensures OnLevel(g, maxDepth, State([(g.root, 0)], {g.root}, {}, []), 0)
    ensures Expanded(g, maxDepth, {}, {g.root}, {})
  {
    WaitingOfOne(g.root, 0);
  }

  /** The walk ends on any table, and lists exactly the edges it should. */
  method DependencyWalk(rel: set<Edge>, root: string, dir: Direction, maxDepth: nat) returns (out: seq<DepEdge>)
    ensures ExactWalk(Graph(rel, dir, root), maxDepth, out)
  {
    hide Within, Tidy, OnLevel, Expanded, Grown, Leaves, Next, Nodes;
    ghost var g := Graph(rel, dir, root);
    out := [];
    var seenEdges: set<Edge> := {};
    var seenNodes := {root};
    var queue: Queue := [(root, 0)];
    ghost var done: set<string> := {};
    ghost var level: nat := 0;
    WalkStarts(g, maxDepth);
    while queue != []
      invariant queue != [] ==> queue[0].1 == level
      invariant Tidy(g, done, State(queue, seenNodes, seenEdges, out))
      invariant OnLevel(g, maxDepth, State(queue, seenNodes, seenEdges, out), level)
      invariant Expanded(g, maxDepth, done, seenNodes, seenEdges)
      decreases Nodes(g) - done
    {
      ghost var s := State(queue, seenNodes, seenEdges, out);
      var (cur, depth) := queue[0];
      HeadIsNew(g, done, s);
      if depth >= maxDepth {
        LevelInRange(g, maxDepth, s, level);
        TooDeepKeeps(g, maxDepth, done, s, cur);
        queue := queue[1..];
      } else {
        queue := queue[1..];
        var rows := StepEdges(rel, cur, dir);
        queue, seenNodes, seenEdges, out := ExpandRecord(rows, cur, depth, dir, queue, seenNodes, seenEdges, out);
        ghost var added, listed :| Grown(dir, cur, depth, rows, s.(queue := s.queue[1..]), added, listed,
                                         State(queue, seenNodes, seenEdges, out));
        ExpansionKeeps(g, maxDepth, done, s, cur, level, rows, added, listed,
                       State(queue, seenNodes, seenEdges, out));
      }
      done := done + {cur};
      if queue != [] && queue[0].1 != level {
        LevelAdvances(g, maxDepth, done, State(queue, seenNodes, seenEdges, out), level);
        level := level + 1;
      }
    }
    EmptyQueueIsExact(g, maxDepth, done, State(queue, seenNodes, seenEdges, out), level);
  }
}
