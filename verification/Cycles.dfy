/** validateNoCycles: depth-first search over the struct graph from every root, with a three-valued state per struct. */
module Cycles {

  /** A field that structurally descends into a declared struct; id_ref and custom fields make no edge. */
  datatype Edge = Edge(tag: nat, to: string)

  type Graph = map<string, seq<Edge>>

  /** A reported cycle: edges[i] leads from nodes[i] to the next node, the last one back to the first. */
  datatype Cycle = Cycle(nodes: seq<string>, edges: seq<Edge>)

  /** referencedKeys only names declared structs. */
  predicate Closed(g: Graph) {
    forall k :: k in g ==> forall i :: 0 <= i < |g[k]| ==> g[k][i].to in g
  }

  predicate Leads(g: Graph, a: string, e: Edge, b: string) { a in g && e in g[a] && e.to == b }

  predicate Succ(g: Graph, a: string, b: string) { exists e :: e in (if a in g then g[a] else []) && e.to == b }

  function Next(nodes: seq<string>, last: string, i: nat): string { if i + 1 < |nodes| then nodes[i + 1] else last }

  /** A real closed walk. */
  ghost predicate ClosedWalk(g: Graph, c: Cycle) {
    && |c.nodes| == |c.edges| > 0
    && forall i :: 0 <= i < |c.nodes| ==> Leads(g, c.nodes[i], c.edges[i], Next(c.nodes, c.nodes[0], i))
  }

  /** A way along edges. */
  ghost predicate Way(g: Graph, p: seq<string>) {
    |p| > 0 && forall i :: 0 <= i && i + 1 < |p| ==> Succ(g, p[i], p[i + 1])
  }

  ghost predicate From(g: Graph, roots: seq<string>, k: string) {
    exists p :: Way(g, p) && p[0] in roots && p[|p| - 1] == k
  }

  lemma {:induction false} FromStep(g: Graph, roots: seq<string>, a: string, b: string)
    requires From(g, roots, a) && Succ(g, a, b)
    ensures From(g, roots, b)
  {
    var p :| Way(g, p) && p[0] in roots && p[|p| - 1] == a;
    var q := p + [b];
    forall i | 0 <= i && i + 1 < |q| ensures Succ(g, q[i], q[i + 1]) {
      if i + 1 < |p| {
        assert Succ(g, p[i], p[i + 1]);
      }
    }
    assert Way(g, q) && q[|q| - 1] == b;
  }

  /** The path the search is on: distinct structs, each reached from the one before by its edge. */
  ghost predicate OnPath(g: Graph, nodes: seq<string>, edges: seq<Edge>, key: string) {
    && |edges| == |nodes|
    && (forall i, j :: 0 <= i < j < |nodes| ==> nodes[i] != nodes[j])
    && forall i :: 0 <= i < |nodes| ==> Leads(g, nodes[i], edges[i], Next(nodes, key, i))
  }

  const UNSEEN: int := 0
  const ON_STACK: int := 1
  const DONE: int := 2

  function StateAt(state: map<string, int>, k: string): int { if k in state then state[k] else UNSEEN }

  /** Every struct that was finished came after all it leads to. */
  ghost predicate Ordered(g: Graph, order: seq<string>) {
    forall i, b :: 0 <= i < |order| && Succ(g, order[i], b) ==> b in order[..i]
  }

  /** On-stack structs are exactly the path; finished structs lead to nothing unseen; and while no cycle has been found
      the finishing order is a topological order. */
  ghost predicate Sound(g: Graph, state: map<string, int>, order: seq<string>, clean: bool, nodes: seq<string>) {
    && Closed(g)
    && (forall k :: k in state ==> k in g && UNSEEN <= state[k] <= DONE)
    && (forall k :: StateAt(state, k) == ON_STACK <==> k in nodes)
    && (forall k, b :: StateAt(state, k) == DONE && Succ(g, k, b) ==> StateAt(state, b) != UNSEEN)
    && (clean ==> Ordered(g, order) && forall k :: StateAt(state, k) == DONE ==> k in order)
  }

  ghost function Unseen(g: Graph, state: map<string, int>): set<string> {
    set k | k in g && StateAt(state, k) == UNSEEN
  }

  /** What was done stays done. */
  ghost predicate Keeps(a: map<string, int>, b: map<string, int>) {
    forall k :: StateAt(a, k) == DONE ==> StateAt(b, k) == DONE
  }

  /** Every report is a real closed walk that the roots lead to. */
  ghost predicate Real(g: Graph, roots: seq<string>, found: seq<Cycle>) {
    forall c :: c in found ==> ClosedWalk(g, c) && forall k :: k in c.nodes ==> From(g, roots, k)
  }

  ghost predicate AllFrom(g: Graph, roots: seq<string>, nodes: seq<string>) {
    forall k :: k in nodes ==> From(g, roots, k)
  }

  lemma {:induction false} Push(g: Graph, state: map<string, int>, order: seq<string>, clean: bool, nodes: seq<string>,
                                key: string)
    requires Sound(g, state, order, clean, nodes) && key !in nodes && key in g
    ensures Sound(g, state[key := ON_STACK], order, clean, nodes + [key])
    ensures Unseen(g, state[key := ON_STACK]) == Unseen(g, state) - {key}
  {
    var next := state[key := ON_STACK];
    assert forall k :: StateAt(next, k) == if k == key then ON_STACK else StateAt(state, k);
  }

  lemma {:induction false} Pop(g: Graph, state: map<string, int>, order: seq<string>, clean: bool, nodes: seq<string>,
                               key: string)
    requires Sound(g, state, order, clean, nodes + [key]) && key !in nodes && key in g
    requires forall b :: Succ(g, key, b) ==> StateAt(state, b) != UNSEEN && (clean ==> b in order)
    ensures Sound(g, state[key := DONE], order + [key], clean, nodes)
  {
    var next := state[key := DONE];
    assert forall k :: StateAt(next, k) == if k == key then DONE else StateAt(state, k);
    if clean {
      var all := order + [key];
      forall i, b | 0 <= i < |all| && Succ(g, all[i], b) ensures b in all[..i] {
        assert all[..i] == order[..i];
      }
    }
  }

  lemma {:induction false} NothingReal(g: Graph, roots: seq<string>)
    ensures Real(g, roots, [])
  {
  }

  lemma {:induction false} BothReal(g: Graph, roots: seq<string>, a: seq<Cycle>, b: seq<Cycle>)
    requires Real(g, roots, a) && Real(g, roots, b)
    ensures Real(g, roots, a + b)
  {
  }

  lemma {:induction false} EdgeOut(g: Graph, roots: seq<string>, key: string, i: nat)
    requires Closed(g) && key in g && i < |g[key]| && From(g, roots, key)
    ensures var e := g[key][i]; Leads(g, key, e, e.to) && e.to in g && From(g, roots, e.to)
  {
    var e := g[key][i];
    assert e in g[key] && Succ(g, key, e.to);
    FromStep(g, roots, key, e.to);
  }

  /** What a state says about the target of an edge. */
  lemma {:induction false} StateMeans(g: Graph, state: map<string, int>, order: seq<string>, clean: bool,
                                      nodes: seq<string>, k: string)
    requires Sound(g, state, order, clean, nodes)
    ensures Closed(g)
    ensures StateAt(state, k) == ON_STACK <==> k in nodes
    ensures StateAt(state, k) != UNSEEN && StateAt(state, k) != ON_STACK ==> StateAt(state, k) == DONE
    ensures StateAt(state, k) == DONE && clean ==> k in order
    ensures Sound(g, state, order, false, nodes)
  {
  }

  lemma {:induction false} Smaller(g: Graph, start: map<string, int>, state: map<string, int>, key: string, to: string)
    requires Unseen(g, state) <= Unseen(g, start) - {key} && to in g && StateAt(state, to) == UNSEEN
    ensures |Unseen(g, state) + {to}| < |Unseen(g, start) + {key}|
  {
    assert Unseen(g, state) + {to} == Unseen(g, state);
    Size(Unseen(g, state), (Unseen(g, start) + {key}) - {key});
  }

  lemma {:induction false} Size(a: set<string>, b: set<string>)
    requires a <= b
    ensures |a| <= |b|
  {
    if a != {} {
      var x :| x in a;
      Size(a - {x}, b - {x});
    }
  }

  lemma {:induction false} SeenStays(g: Graph, a: map<string, int>, b: map<string, int>)
    requires Unseen(g, b) <= Unseen(g, a)
    ensures forall k :: k in g && StateAt(a, k) != UNSEEN ==> StateAt(b, k) != UNSEEN
  {
    forall k | k in g && StateAt(a, k) != UNSEEN ensures StateAt(b, k) != UNSEEN {
      assert k !in Unseen(g, a);
    }
  }

  lemma {:induction false} AllOut(g: Graph, state: map<string, int>, order: seq<string>, clean: bool, key: string)
    requires key in g
    requires forall j :: 0 <= j < |g[key]| ==>
             StateAt(state, g[key][j].to) != UNSEEN && (clean ==> g[key][j].to in order)
    ensures forall b :: Succ(g, key, b) ==> StateAt(state, b) != UNSEEN && (clean ==> b in order)
  {
  }

  lemma {:induction false} KeptThrough(g: Graph, start: map<string, int>, state: map<string, int>, key: string)
    requires Keeps(start[key := ON_STACK], state) && Unseen(g, state) <= Unseen(g, start) - {key}
    ensures Keeps(start, state[key := DONE]) && Unseen(g, state[key := DONE]) <= Unseen(g, start)
  {
    var pushed, done := start[key := ON_STACK], state[key := DONE];
    forall k | StateAt(start, k) == DONE ensures StateAt(done, k) == DONE {
      assert k != key ==> StateAt(pushed, k) == DONE;
    }
    forall k | k in Unseen(g, done) ensures k in Unseen(g, start) {
      assert k in Unseen(g, state);
    }
  }

  lemma {:induction false} PathOn(g: Graph, nodes: seq<string>, edges: seq<Edge>, key: string, fd: Edge)
    requires OnPath(g, nodes, edges, key) && key !in nodes && Leads(g, key, fd, fd.to)
    ensures OnPath(g, nodes + [key], edges + [fd], fd.to)
  {
    var path, es := nodes + [key], edges + [fd];
    forall i | 0 <= i < |path| ensures Leads(g, path[i], es[i], Next(path, fd.to, i)) {
      if i < |nodes| {
        assert Leads(g, nodes[i], edges[i], Next(nodes, key, i));
      }
    }
  }

  lemma {:induction false} TailWalks(g: Graph, path: seq<string>, es: seq<Edge>, idx: nat)
    requires |path| == |es| && idx < |path|
    requires forall i :: 0 <= i < |path| ==> Leads(g, path[i], es[i], Next(path, path[idx], i))
    ensures ClosedWalk(g, Cycle(path[idx..], es[idx..]))
  {
    hide Leads;
    var c := Cycle(path[idx..], es[idx..]);
    forall i | 0 <= i < |c.nodes| ensures Leads(g, c.nodes[i], c.edges[i], Next(c.nodes, c.nodes[0], i)) {
      assert Leads(g, path[idx + i], es[idx + i], Next(path, path[idx], idx + i));
    }
  }

  /** The part of the path from n on, closed by an edge back to n. */
  lemma {:induction false} CycleCloses(g: Graph, roots: seq<string>, nodes: seq<string>, edges: seq<Edge>, key: string,
                                       fd: Edge, idx: nat)
    requires OnPath(g, nodes, edges, key) && key !in nodes && Leads(g, key, fd, fd.to)
    requires idx <= |nodes| && (nodes + [key])[idx] == fd.to && AllFrom(g, roots, nodes) && From(g, roots, key)
    ensures Real(g, roots, [Cycle((nodes + [key])[idx..], edges[idx..] + [fd])])
  {
    hide From, Leads, ClosedWalk, Next;
    PathOn(g, nodes, edges, key, fd);
    var path, es := nodes + [key], edges + [fd];
    TailWalks(g, path, es, idx);
    assert es[idx..] == edges[idx..] + [fd];
    assert forall k :: k in path[idx..] ==> k in path;
  }

  lemma {:induction false} PathLengths(g: Graph, nodes: seq<string>, edges: seq<Edge>, key: string)
    requires OnPath(g, nodes, edges, key)
    ensures |edges| == |nodes|
  {
  }

  class CycleSearch {
    const g: Graph
    const roots: seq<string>
    var state: map<string, int>
    // the structs in the order they were finished, while no cycle has been found
    ghost var order: seq<string>
    ghost var clean: bool

    ghost predicate Valid(nodes: seq<string>)
      reads this
    {
      Sound(g, state, order, clean, nodes)
    }

    constructor (g: Graph, roots: seq<string>)
      requires Closed(g)
      ensures this.g == g && this.roots == roots && Valid([]) && clean && state == map[]
    {
      this.g, this.roots := g, roots;
      state := map[];
      order, clean := [], true;
    }

    /** One search. A root that is already finished is walked again. */
    method Dfs(key: string, nodes: seq<string>, edges: seq<Edge>) returns (found: seq<Cycle>)
      requires Valid(nodes) && OnPath(g, nodes, edges, key) && key !in nodes && From(g, roots, key)
               && AllFrom(g, roots, nodes)
      modifies this
      ensures Valid(nodes) && Keeps(old(state), state) && (key in g ==> StateAt(state, key) == DONE)
      ensures Unseen(g, state) <= Unseen(g, old(state)) && old(order) <= order
      ensures clean == (old(clean) && found == []) && Real(g, roots, found)
      decreases |Unseen(g, state) + {key}|
    {
      hide Sound, Real, From, OnPath, ClosedWalk, Unseen, Succ, Leads;
      found := [];
      NothingReal(g, roots);
      if key !in g {
        return;
      }
      ghost var start := state;
      StateMeans(g, state, order, clean, nodes, key);
      PathLengths(g, nodes, edges, key);
      Push(g, state, order, clean, nodes, key);
      state := state[key := ON_STACK];
      ghost var pushed := state;
      var path := nodes + [key];
      var i := 0;
      while i < |g[key]|
        invariant 0 <= i <= |g[key]|
        invariant Valid(path) && Keeps(pushed, state) && old(order) <= order
        invariant Unseen(g, state) <= Unseen(g, start) - {key}
        invariant clean == (old(clean) && found == []) && Real(g, roots, found)
        invariant forall j :: 0 <= j < i ==> StateAt(state, g[key][j].to) != UNSEEN && (clean ==> g[key][j].to in order)
      {
        var fd := g[key][i];
        ghost var before := state;
        StateMeans(g, state, order, clean, path, fd.to);
        EdgeOut(g, roots, key, i);
        if StateAt(state, fd.to) == UNSEEN {
          PathOn(g, nodes, edges, key, fd);
          Smaller(g, start, state, key, fd.to);
          var more := Dfs(fd.to, path, edges + [fd]);
          SeenStays(g, before, state);
          StateMeans(g, state, order, clean, path, fd.to);
          BothReal(g, roots, found, more);
          found := found + more;
        } else if StateAt(state, fd.to) == ON_STACK {
          var idx := 0;
          while path[idx] != fd.to
            invariant 0 <= idx < |path| && fd.to in path[idx..]
            decreases |path| - idx
          {
            assert path[idx..] == [path[idx]] + path[idx + 1..];
            idx := idx + 1;
          }
          var c := Cycle(path[idx..], edges[idx..] + [fd]);
          CycleCloses(g, roots, nodes, edges, key, fd, idx);
          BothReal(g, roots, found, [c]);
          found := found + [c];
          clean := false;
        }
        i := i + 1;
      }
      AllOut(g, state, order, clean, key);
      Pop(g, state, order, clean, nodes, key);
      KeptThrough(g, start, state, key);
      state := state[key := DONE];
      order := order + [key];
    }
  }

  /** The first place of k in the finishing order. */
  ghost function Place(order: seq<string>, k: string): (i: nat)
    requires k in order
    ensures i < |order| && order[i] == k && k !in order[..i]
  {
    if order[0] == k then 0
    else
      assert k in order[1..];
      var i := Place(order[1..], k);
      assert order[..i + 1] == [order[0]] + order[1..][..i];
      i + 1
  }

  lemma {:induction false} Downhill(g: Graph, order: seq<string>, a: string, b: string)
    requires Ordered(g, order) && a in order && Succ(g, a, b)
    ensures b in order && Place(order, b) < Place(order, a)
  {
    var i := Place(order, a);
    assert b in order[..i];
    var j :| 0 <= j < i && order[j] == b;
    assert forall n :: j < n <= |order| ==> order[..n][j] == b;
  }

  /** A closed walk would have to go downhill for ever. */
  lemma {:induction false} WalkFalls(g: Graph, order: seq<string>, c: Cycle, j: nat)
    requires Ordered(g, order) && ClosedWalk(g, c) && c.nodes[0] in order && j < |c.nodes|
    ensures c.nodes[j] in order && Place(order, c.nodes[j]) + j <= Place(order, c.nodes[0])
  {
    if j > 0 {
      WalkFalls(g, order, c, j - 1);
      assert Leads(g, c.nodes[j - 1], c.edges[j - 1], Next(c.nodes, c.nodes[0], j - 1));
      Downhill(g, order, c.nodes[j - 1], c.nodes[j]);
    }
  }

  lemma {:induction false} NoWalk(g: Graph, order: seq<string>, c: Cycle)
    requires Ordered(g, order) && ClosedWalk(g, c)
    ensures c.nodes[0] !in order
  {
    var m := |c.nodes| - 1;
    assert Leads(g, c.nodes[m], c.edges[m], Next(c.nodes, c.nodes[0], m));
    if c.nodes[0] in order {
      WalkFalls(g, order, c, m);
      Downhill(g, order, c.nodes[m], c.nodes[0]);
    }
  }

  /** Every declared struct the roots lead to has been finished. */
  lemma {:induction false} WayInOrder(g: Graph, roots: seq<string>, order: seq<string>, p: seq<string>)
    requires Ordered(g, order) && Way(g, p) && p[0] in roots && forall r :: r in roots && r in g ==> r in order
    ensures p[|p| - 1] in g ==> p[|p| - 1] in order
    decreases |p|
  {
    if |p| > 1 {
      var q := p[..|p| - 1];
      assert Succ(g, p[|p| - 2], p[|p| - 1]);
      forall i | 0 <= i && i + 1 < |q| ensures Succ(g, q[i], q[i + 1]) {
        assert Succ(g, p[i], p[i + 1]);
      }
      WayInOrder(g, roots, order, q);
      Downhill(g, order, p[|p| - 2], p[|p| - 1]);
    }
  }

  ghost predicate CycleFrom(g: Graph, roots: seq<string>) { exists c :: ClosedWalk(g, c) && From(g, roots, c.nodes[0]) }

  lemma {:induction false} CleanMeansNone(g: Graph, roots: seq<string>, order: seq<string>)
    requires Ordered(g, order) && forall r :: r in roots && r in g ==> r in order
    ensures !CycleFrom(g, roots)
  {
    forall c | ClosedWalk(g, c) ensures !From(g, roots, c.nodes[0]) {
      assert Leads(g, c.nodes[0], c.edges[0], Next(c.nodes, c.nodes[0], 0));
      NoWalk(g, order, c);
      if From(g, roots, c.nodes[0]) {
        var p :| Way(g, p) && p[0] in roots && p[|p| - 1] == c.nodes[0];
        WayInOrder(g, roots, order, p);
      }
    }
  }

  /** A height that falls along every edge out of the structs it is given for. */
  ghost predicate Slopes(g: Graph, height: map<string, nat>) {
    forall a, b :: a in height && Succ(g, a, b) ==> b in height && height[b] < height[a]
  }

  lemma {:induction false} WalkStep(g: Graph, c: Cycle, j: nat)
    requires ClosedWalk(g, c) && j < |c.nodes|
    ensures Succ(g, c.nodes[j], Next(c.nodes, c.nodes[0], j))
  {
    assert Leads(g, c.nodes[j], c.edges[j], Next(c.nodes, c.nodes[0], j));
  }

  lemma {:induction false} WalkSlopes(g: Graph, height: map<string, nat>, c: Cycle, j: nat)
    requires Slopes(g, height) && ClosedWalk(g, c) && |c.nodes| > 0 && c.nodes[0] in height && j < |c.nodes|
    ensures c.nodes[j] in height && height[c.nodes[j]] + j <= height[c.nodes[0]]
  {
    hide ClosedWalk, Succ;
    if j > 0 {
      WalkSlopes(g, height, c, j - 1);
      WalkStep(g, c, j - 1);
    }
  }

  lemma {:induction false} SlopesMeanNone(g: Graph, height: map<string, nat>, c: Cycle)
    requires Slopes(g, height) && ClosedWalk(g, c) && |c.nodes| > 0
    ensures c.nodes[0] !in height
  {
    hide ClosedWalk, Succ;
    if c.nodes[0] in height {
      WalkSlopes(g, height, c, |c.nodes| - 1);
      WalkStep(g, c, |c.nodes| - 1);
    }
  }

  lemma {:induction false} RootFrom(g: Graph, roots: seq<string>, i: nat)
    requires i < |roots|
    ensures From(g, roots, roots[i])
  {
    assert Way(g, [roots[i]]);
  }

  /** A report exactly when the roots lead to a cycle, and every report is a real closed walk the roots lead to; without
      one the finishing order ranks every struct the roots lead to. */
  method ValidateNoCycles(g: Graph, roots: seq<string>) returns (issues: seq<Cycle>, ghost order: seq<string>)
    requires Closed(g)
    ensures Real(g, roots, issues)
    ensures issues != [] <==> CycleFrom(g, roots)
    ensures issues == [] ==> Ordered(g, order) && forall k :: k in g && From(g, roots, k) ==> k in order
  {
    hide Sound, ClosedWalk, From, Unseen;
    var search := new CycleSearch(g, roots);
    issues := [];
    var i := 0;
    while i < |roots|
      invariant 0 <= i <= |roots| && search.g == g && search.roots == roots
      invariant search.Valid([]) && search.clean == (issues == []) && Real(g, roots, issues)
      invariant forall j :: 0 <= j < i && roots[j] in g ==> StateAt(search.state, roots[j]) == DONE
    {
      RootFrom(g, roots, i);
      var more := search.Dfs(roots[i], [], []);
      BothReal(g, roots, issues, more);
      issues := issues + more;
      i := i + 1;
    }
    order := search.order;
    if issues == [] {
      Finished(g, search.state, order, roots);
      CleanMeansNone(g, roots, order);
      AllRanked(g, roots, order);
    } else {
      assert issues[0] in issues && ClosedWalk(g, issues[0]);
      WalkStarts(g, issues[0]);
    }
  }

  lemma {:induction false} AllRanked(g: Graph, roots: seq<string>, order: seq<string>)
    requires Ordered(g, order) && forall r :: r in roots && r in g ==> r in order
    ensures forall k :: k in g && From(g, roots, k) ==> k in order
  {
    forall k | k in g && From(g, roots, k) ensures k in order {
      var p :| Way(g, p) && p[0] in roots && p[|p| - 1] == k;
      WayInOrder(g, roots, order, p);
    }
  }

  lemma {:induction false} WalkStarts(g: Graph, c: Cycle)
    requires ClosedWalk(g, c)
    ensures |c.nodes| > 0 && c.nodes[0] in c.nodes
  {
  }

  lemma {:induction false} Finished(g: Graph, state: map<string, int>, order: seq<string>, roots: seq<string>)
    requires Sound(g, state, order, true, [])
             && forall j :: 0 <= j < |roots| && roots[j] in g ==> StateAt(state, roots[j]) == DONE
    ensures Ordered(g, order) && forall r :: r in roots && r in g ==> r in order
  {
  }
}
