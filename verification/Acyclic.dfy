/** Where the graph algorithms meet the codec: a schema that passes the cycle check has real types, and on those the
    memoised search finds what the encoder's choice of length prefix depends on. */
module Acyclic {
  import opened Basics
  import opened Schema
  import opened Emit
  import opened Snapshot
  import opened ShapeText
  import C = Cycles
  import P = Predicate
  import T = Shapes

  ghost predicate GoodTexts(env: map<string, StructDecl>) {
    forall k :: k in env ==> GoodName(k) && forall i :: 0 <= i < |env[k].fields| ==> GoodNames(env[k].fields[i].shape)
  }

  /** A shape as the reference collector sees it: every name is a leaf. */
  function Seen(s: Shape): T.TypeShape {
    match s
    case SliceOf(e) => T.Slice(Seen(e))
    case MapOf(k, v) => T.MapTo(Seen(k), Seen(v))
    case PtrTo(e) => T.Ptr(Seen(e))
    case _ => T.Leaf(Text(s))
  }

  /** The structs a shape mentions, left to right. */
  function RefsOf(s: Shape, known: set<string>): seq<string> {
    match s
    case StructRef(k) => if k in known then [k] else []
    case SliceOf(e) => RefsOf(e, known)
    case MapOf(k, v) => RefsOf(k, known) + RefsOf(v, known)
    case PtrTo(e) => RefsOf(e, known)
    case _ => []
  }

  /** referencedKeys reads exactly those off the Type string. */
  lemma {:induction false} RefsCollected(s: Shape, known: set<string>)
    requires GoodShape(s) && GoodNames(s) && !s.IdOf? && forall n :: n in known ==> GoodName(n)
    ensures T.Collect(Text(s), known) == RefsOf(s, known)
  {
    SeenPrints(s);
    SeenRefs(s, known);
    T.CollectPrinted(Seen(s), known);
  }

  lemma {:induction false} SeenPrints(s: Shape)
    requires GoodShape(s) && GoodNames(s) && !s.IdOf?
    ensures T.Print(Seen(s)) == Text(s) && T.Good(Seen(s))
  {
    hide T.Balanced;
    match s
    case SliceOf(e) => SeenPrints(e);
    case MapOf(k, v) =>
      SeenPrints(k);
      SeenPrints(v);
    case PtrTo(e) => SeenPrints(e);
    case Basic(p) =>
      PrimWord(p);
      TextBalanced(s);
    case StructRef(_) =>
    case Named(n, u) =>
      TextBalanced(s);
      NotMap(n, "(" + Text(u) + ")");
      assert Text(s) == n + ("(" + Text(u) + ")") && Text(s)[0] == n[0];
  }

  lemma {:induction false} SeenRefs(s: Shape, known: set<string>)
    requires GoodShape(s) && !s.IdOf? && forall n :: n in known ==> GoodName(n)
    ensures T.Refs(Seen(s), known) == RefsOf(s, known)
  {
    match s
    case SliceOf(e) => SeenRefs(e, known);
    case MapOf(k, v) =>
      SeenRefs(k, known);
      SeenRefs(v, known);
    case PtrTo(e) => SeenRefs(e, known);
    case Basic(p) => PrimWord(p);
    case StructRef(_) =>
    case Named(n, u) => assert Text(s)[|n|] == '(';
  }

  function EdgesTo(tag: nat, refs: seq<string>): seq<C.Edge> {
    if |refs| == 0 then [] else [C.Edge(tag, refs[0])] + EdgesTo(tag, refs[1..])
  }

  function EdgesOf(fs: seq<FieldDecl>, known: set<string>): seq<C.Edge> {
    if |fs| == 0 then []
    else
      var first := if Descends(fs[0]) then EdgesTo(fs[0].tag, T.Collect(Text(fs[0].shape), known)) else [];
      first + EdgesOf(fs[1..], known)
  }

  /** The graph the cycle check walks. */
  function Edges(env: map<string, StructDecl>): C.Graph { map k | k in env :: EdgesOf(env[k].fields, env.Keys) }

  lemma {:induction false} EdgeFor(tag: nat, refs: seq<string>, b: string)
    requires b in refs
    ensures exists e :: e in EdgesTo(tag, refs) && e.to == b
  {
    if refs[0] == b {
      assert EdgesTo(tag, refs)[0].to == b;
    } else {
      EdgeFor(tag, refs[1..], b);
    }
  }

  lemma {:induction false} FieldEdge(fs: seq<FieldDecl>, known: set<string>, i: nat, b: string)
    requires i < |fs| && Descends(fs[i]) && b in T.Collect(Text(fs[i].shape), known)
    ensures exists e :: e in EdgesOf(fs, known) && e.to == b
  {
    hide T.Collect, Text;
    if i == 0 {
      EdgeFor(fs[0].tag, T.Collect(Text(fs[0].shape), known), b);
    } else {
      FieldEdge(fs[1..], known, i - 1, b);
    }
  }

  ghost function RankOf(env: map<string, StructDecl>, order: seq<string>): map<string, nat> {
    map k | k in env && k in order :: C.Place(order, k)
  }

  /** A finishing order of the cycle check in which every struct comes after all it leads to ranks the structs in it. */
  lemma {:induction false} OrderRanks(env: map<string, StructDecl>, order: seq<string>)
    requires GoodSnap(env) && GoodTexts(env) && C.Ordered(Edges(env), order)
    ensures Falls(env, RankOf(env, order))
  {
    hide C.Place, C.Ordered, RefsBelow, EdgesOf, Text, T.Collect, GoodNames, GoodShape, GoodName;
    var g, rank := Edges(env), RankOf(env, order);
    forall k, i | k in rank && 0 <= i < |env[k].fields| && Descends(env[k].fields[i])
      ensures RefsBelow(env, rank, env[k].fields[i].shape, rank[k])
    {
      var f := env[k].fields[i];
      DescendsPlain(env, k, i);
      forall b | b in RefsOf(f.shape, env.Keys) ensures b in rank && rank[b] < rank[k] {
        RefsCollected(f.shape, env.Keys);
        FieldEdge(env[k].fields, env.Keys, i, b);
        RefKnown(f.shape, env.Keys, b);
        assert C.Succ(g, k, b);
        C.Downhill(g, order, k, b);
      }
      RefsRank(env, rank, f.shape, rank[k]);
    }
  }

  lemma {:induction false} DescendsPlain(env: map<string, StructDecl>, k: string, i: nat)
    requires GoodSnap(env) && GoodTexts(env) && k in env && i < |env[k].fields| && Descends(env[k].fields[i])
    ensures var s := env[k].fields[i].shape; GoodShape(s) && GoodNames(s) && !s.IdOf?
    ensures forall n :: n in env.Keys ==> GoodName(n)
  {
    assert GoodDecl(env[k].fields[i]);
  }

  lemma {:induction false} RefKnown(s: Shape, known: set<string>, b: string)
    requires b in RefsOf(s, known)
    ensures b in known
  {
    match s
    case SliceOf(e) => RefKnown(e, known, b);
    case MapOf(k, v) =>
      if b in RefsOf(k, known) {
        RefKnown(k, known, b);
      } else {
        RefKnown(v, known, b);
      }
    case PtrTo(e) => RefKnown(e, known, b);
    case _ =>
  }

  lemma {:induction false} RefsRank(env: map<string, StructDecl>, rank: map<string, nat>, s: Shape, bound: nat)
    requires GoodShape(s) && !s.IdOf? && forall b :: b in RefsOf(s, env.Keys) ==> b in rank && rank[b] < bound
    ensures RefsBelow(env, rank, s, bound)
  {
    match s
    case SliceOf(e) => RefsRank(env, rank, e, bound);
    case MapOf(k, v) =>
      assert forall b :: b in RefsOf(v, env.Keys) ==> b in RefsOf(s, env.Keys);
      RefsRank(env, rank, v, bound);
    case PtrTo(e) => RefsRank(env, rank, e, bound);
    case Named(_, u) => assert RefsBelow(env, rank, u, bound);
    case _ =>
  }

  lemma {:induction false} EdgesKnown(fs: seq<FieldDecl>, known: set<string>, e: C.Edge)
    requires e in EdgesOf(fs, known)
    requires forall n :: n in known ==> GoodName(n)
    requires forall i :: 0 <= i < |fs| && Descends(fs[i]) ==>
      GoodShape(fs[i].shape) && GoodNames(fs[i].shape) && !fs[i].shape.IdOf?
    ensures e.to in known
  {
    hide T.Collect, Text, GoodName, GoodNames, GoodShape;
    var refs := T.Collect(Text(fs[0].shape), known);
    if Descends(fs[0]) && e in EdgesTo(fs[0].tag, refs) {
      RefsCollected(fs[0].shape, known);
      EdgeTarget(fs[0].tag, refs, e);
      RefKnown(fs[0].shape, known, e.to);
    } else {
      EdgesKnown(fs[1..], known, e);
    }
  }

  lemma {:induction false} EdgeTarget(tag: nat, refs: seq<string>, e: C.Edge)
    requires e in EdgesTo(tag, refs)
    ensures e.to in refs
  {
    if e != C.Edge(tag, refs[0]) {
      EdgeTarget(tag, refs[1..], e);
    }
  }

  lemma {:induction false} EdgesClosed(env: map<string, StructDecl>)
    requires GoodSnap(env) && GoodTexts(env)
    ensures C.Closed(Edges(env))
  {
    hide EdgesOf, GoodName, GoodNames, GoodShape;
    forall k, i | k in env && 0 <= i < |EdgesOf(env[k].fields, env.Keys)|
      ensures EdgesOf(env[k].fields, env.Keys)[i].to in env
    {
      forall j | 0 <= j < |env[k].fields| && Descends(env[k].fields[j])
        ensures var s := env[k].fields[j].shape; GoodShape(s) && GoodNames(s) && !s.IdOf?
      {
        DescendsPlain(env, k, j);
      }
      EdgesKnown(env[k].fields, env.Keys, EdgesOf(env[k].fields, env.Keys)[i]);
    }
  }

  /** The cycle check on a schema. When it reports nothing, every struct the roots lead to has a rank, and with it a
      type of finite depth. */
  method CheckCycles(env: map<string, StructDecl>, roots: seq<string>)
    returns (issues: seq<C.Cycle>, ghost rank: map<string, nat>)
    requires GoodSnap(env) && GoodTexts(env)
    ensures issues != [] <==> C.CycleFrom(Edges(env), roots)
    ensures issues == [] ==> Falls(env, rank) && forall k :: k in env && C.From(Edges(env), roots, k) ==> k in rank
  {
    hide Falls, C.From, C.CycleFrom, C.Real, C.Ordered;
    EdgesClosed(env);
    ghost var order;
    issues, order := C.ValidateNoCycles(Edges(env), roots);
    rank := RankOf(env, order);
    if issues == [] {
      OrderRanks(env, order);
    }
  }

  /** A rank for some structs that falls from each of them to every struct a field of it mentions, but for id_refs and
      fields under a codec. */
  ghost predicate RanksFields(env: map<string, StructDecl>, rank: map<string, nat>) {
    forall k :: k in rank ==> k in env && forall i :: 0 <= i < |env[k].fields| ==>
      FieldFalls(env, rank, rank[k], env[k].fields[i])
  }

  predicate FieldFalls(env: map<string, StructDecl>, rank: map<string, nat>, bound: nat, f: FieldDecl) {
    !f.cycleBreak && f.custom == "" ==> forall b :: b in RefsOf(f.shape, env.Keys) ==> b in rank && rank[b] < bound
  }

  lemma {:induction false} EdgeField(env: map<string, StructDecl>, fs: seq<FieldDecl>, e: C.Edge)
    requires forall n :: n in env.Keys ==> GoodName(n)
    requires forall i :: 0 <= i < |fs| && Descends(fs[i]) ==>
      GoodShape(fs[i].shape) && GoodNames(fs[i].shape) && !fs[i].shape.IdOf?
    requires e in EdgesOf(fs, env.Keys)
    ensures exists i :: 0 <= i < |fs| && !fs[i].cycleBreak && fs[i].custom == ""
                        && e.to in RefsOf(fs[i].shape, env.Keys)
  {
    hide T.Collect, Text, GoodName, GoodNames, GoodShape;
    var refs := T.Collect(Text(fs[0].shape), env.Keys);
    if Descends(fs[0]) && e in EdgesTo(fs[0].tag, refs) {
      RefsCollected(fs[0].shape, env.Keys);
      EdgeTarget(fs[0].tag, refs, e);
      assert e.to in RefsOf(fs[0].shape, env.Keys);
    } else {
      EdgeField(env, fs[1..], e);
      var i :| 0 <= i < |fs[1..]| && !fs[1..][i].cycleBreak && fs[1..][i].custom == ""
               && e.to in RefsOf(fs[1..][i].shape, env.Keys);
      assert fs[i + 1] == fs[1..][i];
    }
  }

  /** The check reports nothing where there is nothing: a rank for every struct the roots lead to rules a cycle out. */
  lemma {:induction false} NoFalseReport(env: map<string, StructDecl>, roots: seq<string>, rank: map<string, nat>)
    requires GoodSnap(env) && GoodTexts(env) && RanksFields(env, rank)
    requires forall k :: k in env && C.From(Edges(env), roots, k) ==> k in rank
    ensures !C.CycleFrom(Edges(env), roots)
  {
    hide C.From, EdgesOf, GoodNames, GoodShape, GoodName, C.ClosedWalk;
    var g := Edges(env);
    forall a, b | a in rank && C.Succ(g, a, b) ensures b in rank && rank[b] < rank[a] {
      var e: C.Edge :| e in g[a] && e.to == b;
      forall j | 0 <= j < |env[a].fields| && Descends(env[a].fields[j])
        ensures var s := env[a].fields[j].shape; GoodShape(s) && GoodNames(s) && !s.IdOf?
      {
        DescendsPlain(env, a, j);
      }
      EdgeField(env, env[a].fields, e);
    }
    forall c | C.ClosedWalk(g, c) ensures |c.nodes| > 0 && c.nodes[0] !in rank && c.nodes[0] in env {
      WalkIn(g, c);
      C.SlopesMeanNone(g, rank, c);
    }
  }

  lemma {:induction false} WalkIn(g: C.Graph, c: C.Cycle)
    requires C.ClosedWalk(g, c)
    ensures |c.nodes| > 0 && c.nodes[0] in g
  {
    assert C.Leads(g, c.nodes[0], c.edges[0], C.Next(c.nodes, c.nodes[0], 0));
  }

  /** A type as the memoised search sees it. */
  function GoType(env: map<string, StructDecl>, s: Shape): P.GoType {
    match s
    case StructRef(k) => if k in env then P.Ref(k) else P.Leaf
    case SliceOf(e) => P.Around(GoType(env, e))
    case MapOf(_, v) => P.Around(GoType(env, v))
    case PtrTo(e) => P.Around(GoType(env, e))
    case _ => P.Leaf
  }

  function Use(env: map<string, StructDecl>, build: Build, f: FieldDecl): P.FieldUse {
    P.FieldUse(LifecycleState(f) == Deprecated, if f.custom != "" then Some(build.codec(f.custom) == Materializing)
        else None,
               f.cycleBreak, GoType(env, f.shape))
  }

  function Uses(env: map<string, StructDecl>, build: Build, fs: seq<FieldDecl>): (us: seq<P.FieldUse>)
    ensures |us| == |fs| && forall i :: 0 <= i < |fs| ==> us[i] == Use(env, build, fs[i])
  {
    if |fs| == 0 then [] else [Use(env, build, fs[0])] + Uses(env, build, fs[1..])
  }

  /** The graph the memoised search walks. */
  function Holds(env: map<string, StructDecl>, build: Build): P.Graph {
    map k | k in env :: P.StructOf(Uses(env, build, env[k].fields))
  }

  lemma {:induction false} TargetKnown(env: map<string, StructDecl>, s: Shape)
    ensures P.Target(GoType(env, s)).Some? ==> P.Target(GoType(env, s)).value in env
  {
    match s
    case SliceOf(e) => TargetKnown(env, e);
    case MapOf(_, v) => TargetKnown(env, v);
    case PtrTo(e) => TargetKnown(env, e);
    case _ =>
  }

  lemma {:induction false} HoldsClosed(env: map<string, StructDecl>, build: Build)
    ensures P.Closed(Holds(env, build))
  {
    forall k, i | k in env && 0 <= i < |env[k].fields|
      ensures P.Target(GoType(env, env[k].fields[i].shape)).Some? ==>
              P.Target(GoType(env, env[k].fields[i].shape)).value in env
    {
      TargetKnown(env, env[k].fields[i].shape);
    }
  }

  /** What the search looks for is what Mat says of the real type. */
  lemma {:induction false} ReachesIsMat(env: map<string, StructDecl>, build: Build, rank: map<string, nat>, s: Shape,
                                        n: nat)
    requires GoodSnap(env) && Falls(env, rank) && RefsBelow(env, rank, s, n) && GoodShape(s) && !s.IdOf?
    ensures P.TypeReaches(Holds(env, build), GoType(env, s)) <==> Mat(Resolve(env, build, s, n))
    decreases n, 0, s
  {
    hide P.Reaches, Holds, ResolveFields, GoodSnap, Falls, KeyOf, PrimTy;
    match s
    case Basic(p) => PrimPlain(p, None);
    case Named(_, u) => NamedPlain(env, build, u, n);
    case StructRef(k) =>
      if k in env {
        StructReachesIsMat(env, build, rank, k, n - 1);
      }
    case SliceOf(e) => ReachesIsMat(env, build, rank, e, n);
    case MapOf(_, v) => ReachesIsMat(env, build, rank, v, n);
    case PtrTo(e) => ReachesIsMat(env, build, rank, e, n);
  }

  lemma {:induction false} PrimPlain(p: Prim, o: Option<Override>)
    ensures !Mat(PrimTy(p, o))
  {
  }

  lemma {:induction false} NamedPlain(env: map<string, StructDecl>, build: Build, u: Shape, n: nat)
    requires (u.Basic? && GoodPrim(u.prim)) || (u.SliceOf? && IsByte(u.elem))
    ensures !Mat(Resolve(env, build, u, n))
  {
  }

  lemma {:induction false} StructReachesIsMat(env: map<string, StructDecl>, build: Build, rank: map<string, nat>,
                                              k: string, n: nat)
    requires GoodSnap(env) && Falls(env, rank) && k in rank && rank[k] <= n
    ensures P.Reaches(Holds(env, build), k) <==> MatFields(ResolveFields(env, build, env[k].fields, n))
    decreases n, 2
  {
    hide P.Reaches, MatField, Resolve, GoType;
    var g, fs := Holds(env, build), env[k].fields;
    P.ReachesStep(g, k);
    var us := g[k].fields;
    forall i | 0 <= i < |fs| ensures P.Hits(g, us[i]) <==> MatField(ResolveField(env, build, fs[i], n)) {
      FieldHitsIsMat(env, build, rank, k, i, n);
    }
    AnyHits(g, k, us);
  }

  lemma {:induction false} AnyHits(g: P.Graph, k: string, us: seq<P.FieldUse>)
    requires k in g && g[k] == P.StructOf(us)
    ensures (P.Bad(g[k]) || exists b :: P.Contains(g, k, b) && P.Reaches(g, b))
            <==> exists i :: 0 <= i < |us| && P.Hits(g, us[i])
  {
    hide P.Reaches;
    if b :| P.Contains(g, k, b) && P.Reaches(g, b) {
      var i :| 0 <= i < |us| && P.Walked(us[i]) && P.Target(us[i].ty) == Some(b);
      assert P.Hits(g, us[i]);
    }
    if i :| 0 <= i < |us| && P.Hits(g, us[i]) {
      assert P.Materialises(us[i]) || P.Contains(g, k, P.Target(us[i].ty).value);
    }
    if P.Bad(g[k]) {
      var i :| 0 <= i < |us| && P.Materialises(us[i]);
      assert P.Hits(g, us[i]);
    }
  }

  lemma {:induction false} FieldHitsIsMat(env: map<string, StructDecl>, build: Build, rank: map<string, nat>, k: string,
                                          i: nat, n: nat)
    requires GoodSnap(env) && Falls(env, rank) && k in rank && rank[k] <= n && i < |env[k].fields|
    ensures P.Hits(Holds(env, build), Use(env, build, env[k].fields[i]))
            <==> MatField(ResolveField(env, build, env[k].fields[i], n))
    decreases n, 1
  {
    hide P.TypeReaches, Holds, Resolve, GoodShape;
    var f := env[k].fields[i];
    assert GoodDecl(f);
    if Descends(f) {
      RefsBelowMore(env, rank, f.shape, rank[k], n);
      ReachesIsMat(env, build, rank, f.shape, n);
      if f.override_.Some? {
        ScalarPlain(env, build, f, n);
      }
    } else if f.custom != "" {
      assert Mat(FieldTy(env, build, f, n)) == Mat(TCustom(build.codec(f.custom), f.tag));
    }
  }

  lemma {:induction false} ScalarPlain(env: map<string, StructDecl>, build: Build, f: FieldDecl, n: nat)
    requires GoodDecl(f) && f.override_.Some? && Descends(f)
    ensures !Mat(ScalarTy(f.shape, f.override_)) && !Mat(Resolve(env, build, f.shape, n))
  {
    ResolveStrip(env, build, f.shape, n);
    assert Resolve(env, build, Strip(f.shape), n) == PrimTy(Strip(f.shape).prim, None);
    PrimPlain(Strip(f.shape).prim, None);
    PrimPlain(Strip(f.shape).prim, f.override_);
  }

  /** The memoised search answers Mat of the real type, whatever was asked before. */
  lemma {:induction false} SearchIsMat(env: map<string, StructDecl>, build: Build, rank: map<string, nat>, s: Shape,
                                       n: nat,
                                       cache: map<string, bool>)
    requires GoodSnap(env) && Falls(env, rank) && env.Keys <= rank.Keys
    requires RefsBelow(env, rank, s, n) && GoodShape(s) && !s.IdOf? && P.Exact(Holds(env, build), cache)
    ensures P.Closed(Holds(env, build)) && (P.Target(GoType(env, s)).Some? ==>
            P.Target(GoType(env, s)).value in Holds(env, build))
    ensures var r := P.SearchType(Holds(env, build), GoType(env, s), {}, cache);
            (r.found <==> Mat(Resolve(env, build, s, n))) && P.Exact(Holds(env, build), r.cache)
  {
    var g := Holds(env, build);
    var height := (k: string) => if k in rank then rank[k] else 0;
    HoldsClosed(env, build);
    TargetKnown(env, s);
    hide P.Closed, P.SearchType, Mat, Resolve, P.Exact;
    HoldsRanked(env, build, rank, height);
    var t := GoType(env, s);
    P.SearchTypeExact(g, height, t, {}, cache, if P.Target(t).Some? then height(P.Target(t).value) + 1 else 0);
    ReachesIsMat(env, build, rank, s, n);
  }

  lemma {:induction false} HoldsRanked(env: map<string, StructDecl>, build: Build, rank: map<string, nat>,
                                       height: string -> nat)
    requires GoodSnap(env) && Falls(env, rank) && env.Keys <= rank.Keys
    requires forall k :: k in rank ==> height(k) == rank[k]
    ensures P.Ranked(Holds(env, build), height)
  {
    var g := Holds(env, build);
    forall a, b | P.Contains(g, a, b) ensures height(b) < height(a) {
      var fs := env[a].fields;
      var i :| 0 <= i < |fs| && P.Walked(Use(env, build, fs[i])) && P.Target(GoType(env, fs[i].shape)) == Some(b);
      assert GoodDecl(fs[i]) && Descends(fs[i]);
      TargetBelow(env, rank, fs[i].shape, rank[a]);
    }
  }

  lemma {:induction false} TargetBelow(env: map<string, StructDecl>, rank: map<string, nat>, s: Shape, bound: nat)
    requires RefsBelow(env, rank, s, bound) && P.Target(GoType(env, s)).Some?
    ensures var b := P.Target(GoType(env, s)).value; b in rank && rank[b] < bound
  {
    match s
    case SliceOf(e) => TargetBelow(env, rank, e, bound);
    case MapOf(_, v) => TargetBelow(env, rank, v, bound);
    case PtrTo(e) => TargetBelow(env, rank, e, bound);
    case _ =>
  }
}
