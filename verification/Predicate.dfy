/** typeContainsMaterializingCodec: a depth-first search with a visited set per query and a cache shared by all
    queries. */
module Predicate {
  import opened Basics

  /** A field as the search sees it. custom: a codec is named, and whether it materialises. */
  datatype FieldUse = FieldUse(plainDeprecated: bool, custom: Option<bool>, cycleBreak: bool, ty: GoType)

  datatype GoType =
    | Leaf
    // a pointer, slice, array or map value
    | Around(inner: GoType)
    | Ref(name: string)

  datatype Named = OpaqueStruct | StructOf(fields: seq<FieldUse>) | AliasOf(under: GoType)

  type Graph = map<string, Named>

  function Target(t: GoType): Option<string> {
    match t
    case Leaf => None
    case Around(u) => Target(u)
    case Ref(n) => Some(n)
  }

  predicate Walked(f: FieldUse) { !f.plainDeprecated && f.custom == None && !f.cycleBreak }

  predicate Materialises(f: FieldUse) { !f.plainDeprecated && f.custom == Some(true) }

  /** An opaque struct, or one with a materialising field. */
  predicate Bad(d: Named) {
    match d
    case OpaqueStruct => true
    case StructOf(fs) => exists i :: 0 <= i < |fs| && Materialises(fs[i])
    case AliasOf(_) => false
  }

  /** a contains b. */
  predicate Contains(g: Graph, a: string, b: string) {
    a in g &&
    match g[a]
    case OpaqueStruct => false
    case StructOf(fs) => exists i :: 0 <= i < |fs| && Walked(fs[i]) && Target(fs[i].ty) == Some(b)
    case AliasOf(t) => Target(t) == Some(b)
  }

  /** A way from a to a bad type through containment. */
  ghost predicate Path(g: Graph, p: seq<string>) {
    && |p| > 0 && (forall i :: 0 <= i < |p| ==> p[i] in g) && Bad(g[p[|p| - 1]])
    && forall i :: 0 <= i && i + 1 < |p| ==> Contains(g, p[i], p[i + 1])
  }

  ghost predicate Reaches(g: Graph, a: string) { exists p :: Path(g, p) && p[0] == a }

  ghost predicate TypeReaches(g: Graph, t: GoType) { Target(t).Some? && Reaches(g, Target(t).value) }

  /** Containment has no cycle: every type ranks above what it contains. */
  ghost predicate Ranked(g: Graph, rank: string -> nat) { forall a, b :: Contains(g, a, b) ==> rank(b) < rank(a) }

  /** Every type that is mentioned is declared. */
  predicate Closed(g: Graph) {
    forall a :: a in g ==>
      match g[a]
      case OpaqueStruct => true
      case StructOf(fs) => forall i :: 0 <= i < |fs| ==> Target(fs[i].ty).Some? ==> Target(fs[i].ty).value in g
      case AliasOf(t) => Target(t).Some? ==> Target(t).value in g
  }

  lemma {:induction false} ReachesStep(g: Graph, a: string)
    requires a in g
    ensures Reaches(g, a) <==> Bad(g[a]) || exists b :: Contains(g, a, b) && Reaches(g, b)
  {
    if Reaches(g, a) && !Bad(g[a]) {
      var p :| Path(g, p) && p[0] == a;
      var q := p[1..];
      assert Contains(g, p[0], p[1]);
      assert Path(g, q) by {
        forall i | 0 <= i && i + 1 < |q| ensures Contains(g, q[i], q[i + 1]) {
          assert Contains(g, p[i + 1], p[i + 2]);
        }
      }
      assert Reaches(g, p[1]);
    }
    if Bad(g[a]) {
      assert Path(g, [a]);
    }
    if b :| Contains(g, a, b) && Reaches(g, b) {
      var q :| Path(g, q) && q[0] == b;
      var p := [a] + q;
      forall i | 0 <= i && i + 1 < |p| ensures Contains(g, p[i], p[i + 1]) {
        if i > 0 {
          assert Contains(g, q[i - 1], q[i]);
        }
      }
      assert Path(g, p) && p[0] == a;
    }
  }

  /** Answer, visited set and cache after a search. */
  datatype Search = Search(found: bool, visited: set<string>, cache: map<string, bool>)

  function SearchType(g: Graph, t: GoType, visited: set<string>, cache: map<string, bool>): (r: Search)
    requires Closed(g) && (Target(t).Some? ==> Target(t).value in g)
    ensures visited <= r.visited
    decreases |g.Keys - visited|, 1, t
  {
    match t
    case Leaf => Search(false, visited, cache)
    case Around(u) => SearchType(g, u, visited, cache)
    case Ref(n) =>
      if n in visited then Search(false, visited, cache)
      else if n in cache then Search(cache[n], visited, cache)
      else
        Shrinks(g.Keys, visited, n);
        var r := SearchNamed(g, g[n], n, visited + {n}, cache);
        Search(r.found, r.visited, r.cache[n := r.found])
  }

  function SearchNamed(g: Graph, d: Named, n: string, visited: set<string>, cache: map<string, bool>): (r: Search)
    requires Closed(g) && n in g && g[n] == d
    ensures visited <= r.visited
    decreases |g.Keys - visited|, 3
  {
    match d
    case OpaqueStruct => Search(true, visited, cache)
    case StructOf(fs) => SearchFields(g, fs, visited, cache)
    case AliasOf(t) => SearchType(g, t, visited, cache)
  }

  function SearchFields(g: Graph, fs: seq<FieldUse>, visited: set<string>, cache: map<string, bool>): (r: Search)
    requires Closed(g) && forall i :: 0 <= i < |fs| ==> Target(fs[i].ty).Some? ==> Target(fs[i].ty).value in g
    ensures visited <= r.visited
    decreases |g.Keys - visited|, 2, |fs|
  {
    if |fs| == 0 then Search(false, visited, cache)
    else if Materialises(fs[0]) then Search(true, visited, cache)
    else if !Walked(fs[0]) then SearchFields(g, fs[1..], visited, cache)
    else
      var r := SearchType(g, fs[0].ty, visited, cache);
      if r.found then r
      else
        Fewer(g.Keys, visited, r.visited);
        SearchFields(g, fs[1..], r.visited, r.cache)
  }

  lemma {:induction false} Shrinks(keys: set<string>, visited: set<string>, n: string)
    requires n in keys && n !in visited
    ensures |keys - (visited + {n})| < |keys - visited|
  {
    assert keys - (visited + {n}) == (keys - visited) - {n};
  }

  lemma {:induction false} Fewer(keys: set<string>, a: set<string>, b: set<string>)
    requires a <= b
    ensures |keys - b| <= |keys - a|
  {
    Subset(keys - b, keys - a);
  }

  lemma {:induction false} Subset(a: set<string>, b: set<string>)
    requires a <= b
    ensures |a| <= |b|
  {
    if a != {} {
      var x :| x in a;
      Subset(a - {x}, b - {x});
    }
  }

  /** The cache tells the truth. */
  ghost predicate Exact(g: Graph, cache: map<string, bool>) {
    forall n :: n in cache ==> n in g && cache[n] == Reaches(g, n)
  }

  /** What is visited reaches nothing bad, or is an ancestor: it ranks above everything still to be searched. */
  ghost predicate Behind(g: Graph, rank: string -> nat, visited: set<string>, top: nat) {
    forall n :: n in visited ==> !Reaches(g, n) || rank(n) >= top
  }

  /** A search that found nothing has visited nothing that reaches something bad. */
  ghost predicate Clean(g: Graph, before: set<string>, r: Search) {
    !r.found ==> forall m :: m in r.visited && m !in before ==> !Reaches(g, m)
  }

  /** On an acyclic graph a search below rank top answers exactly whether something bad is reachable and leaves an exact
      cache. */
  lemma {:induction false} SearchTypeExact(g: Graph, rank: string -> nat, t: GoType, visited: set<string>,
                                           cache: map<string, bool>, top: nat)
    requires Closed(g) && Ranked(g, rank) && (Target(t).Some? ==> Target(t).value in g && rank(Target(t).value) < top)
    requires Exact(g, cache) && Behind(g, rank, visited, top)
    ensures var r := SearchType(g, t, visited, cache);
            r.found == TypeReaches(g, t) && Exact(g, r.cache) && Clean(g, visited, r)
    decreases |g.Keys - visited|, 1, t
  {
    match t
    case Leaf =>
    case Around(u) => SearchTypeExact(g, rank, u, visited, cache, top);
    case Ref(n) =>
      if n !in visited && n !in cache {
        Shrinks(g.Keys, visited, n);
        SearchNamedExact(g, rank, n, visited + {n}, cache);
      }
  }

  lemma {:induction false} SearchNamedExact(g: Graph, rank: string -> nat, n: string, visited: set<string>,
                                            cache: map<string, bool>)
    requires Closed(g) && Ranked(g, rank) && n in g && Exact(g, cache) && Behind(g, rank, visited, rank(n))
    ensures var r := SearchNamed(g, g[n], n, visited, cache);
            r.found == Reaches(g, n) && Exact(g, r.cache) && Clean(g, visited, r)
    decreases |g.Keys - visited|, 3
  {
    ReachesStep(g, n);
    match g[n]
    case OpaqueStruct =>
    case StructOf(fs) =>
      forall i | 0 <= i < |fs| && Walked(fs[i]) && Target(fs[i].ty).Some?
          ensures rank(Target(fs[i].ty).value) < rank(n) {
        assert Contains(g, n, Target(fs[i].ty).value);
      }
      SearchFieldsExact(g, rank, fs, visited, cache, rank(n));
      assert (exists b :: Contains(g, n, b) && Reaches(g, b)) <==>
          exists i :: 0 <= i < |fs| && Walked(fs[i]) && TypeReaches(g, fs[i].ty);
    case AliasOf(t) =>
      if Target(t).Some? {
        assert Contains(g, n, Target(t).value);
      }
      SearchTypeExact(g, rank, t, visited, cache, rank(n));
  }

  /** A field that makes its struct true. */
  ghost predicate Hits(g: Graph, f: FieldUse) { Materialises(f) || (Walked(f) && TypeReaches(g, f.ty)) }

  lemma {:induction false} SearchFieldsExact(g: Graph, rank: string -> nat, fs: seq<FieldUse>, visited: set<string>,
                                             cache: map<string, bool>, top: nat)
    requires Closed(g) && Ranked(g, rank) && Exact(g, cache) && Behind(g, rank, visited, top)
    requires forall i :: 0 <= i < |fs| ==> Target(fs[i].ty).Some? ==>
      Target(fs[i].ty).value in g && (Walked(fs[i]) ==> rank(Target(fs[i].ty).value) < top)
    ensures var r := SearchFields(g, fs, visited, cache);
            && (r.found <==> exists i :: 0 <= i < |fs| && Hits(g, fs[i]))
            && Exact(g, r.cache) && Clean(g, visited, r)
    decreases |g.Keys - visited|, 2, |fs|
  {
    if |fs| > 0 {
      var t := fs[1..];
      assert forall i :: 0 <= i < |t| ==> t[i] == fs[i + 1];
      assert (exists i :: 0 <= i < |fs| && Hits(g, fs[i])) <==>
          Hits(g, fs[0]) || exists i :: 0 <= i < |t| && Hits(g, t[i]) by {
        if i :| 0 <= i < |t| && Hits(g, t[i]) {
          assert Hits(g, fs[i + 1]);
        }
        if i :| 0 < i < |fs| && Hits(g, fs[i]) {
          assert Hits(g, t[i - 1]);
        }
      }
      if !Walked(fs[0]) {
        if !Materialises(fs[0]) {
          SearchFieldsExact(g, rank, t, visited, cache, top);
        }
      } else {
        SearchTypeExact(g, rank, fs[0].ty, visited, cache, top);
        var r := SearchType(g, fs[0].ty, visited, cache);
        if !r.found {
          Fewer(g.Keys, visited, r.visited);
          SearchFieldsExact(g, rank, t, r.visited, r.cache, top);
        }
      }
    }
  }

  /** The emitter's cache, and its queries. */
  class Emitter {
    const g: Graph
    var cache: map<string, bool>

    constructor (g: Graph)
      ensures this.g == g && cache == map[]
    {
      this.g, this.cache := g, map[];
    }

    /** Any query on an acyclic graph, after any queries before it. */
    method TypeContainsMaterializingCodec(t: GoType, ghost rank: string -> nat) returns (found: bool)
      requires Closed(g) && Ranked(g, rank) && Exact(g, cache) && (Target(t).Some? ==> Target(t).value in g)
      modifies this
      ensures found == TypeReaches(g, t) && Exact(g, cache)
    {
      SearchTypeExact(g, rank, t, {}, cache, if Target(t).Some? then rank(Target(t).value) + 1 else 0);
      var visited;
      found, visited := Rec(t, {});
    }

    method Rec(t: GoType, visited: set<string>) returns (found: bool, seen: set<string>)
      requires Closed(g) && (Target(t).Some? ==> Target(t).value in g)
      modifies this
      ensures Search(found, seen, cache) == SearchType(g, t, visited, old(cache))
      decreases |g.Keys - visited|, 1, t
    {
      match t {
        case Leaf => return false, visited;
        case Around(u) => found, seen := Rec(u, visited);
        case Ref(n) =>
          if n in visited {
            return false, visited;
          }
          if n in cache {
            return cache[n], visited;
          }
          Shrinks(g.Keys, visited, n);
          found, seen := NamedContains(n, visited + {n});
          cache := cache[n := found];
      }
    }

    method NamedContains(n: string, visited: set<string>) returns (found: bool, seen: set<string>)
      requires Closed(g) && n in g
      modifies this
      ensures Search(found, seen, cache) == SearchNamed(g, g[n], n, visited, old(cache))
      decreases |g.Keys - visited|, 3
    {
      match g[n] {
        case OpaqueStruct => return true, visited;
        case AliasOf(t) => found, seen := Rec(t, visited);
        case StructOf(fs) =>
          seen := visited;
          var i := 0;
          while i < |fs|
            invariant 0 <= i <= |fs| && visited <= seen
            invariant SearchFields(g, fs, visited, old(cache)) == SearchFields(g, fs[i..], seen, cache)
          {
            assert fs[i..][0] == fs[i] && fs[i..][1..] == fs[i + 1..];
            if Materialises(fs[i]) {
              return true, seen;
            }
            if Walked(fs[i]) {
              Fewer(g.Keys, visited, seen);
              found, seen := Rec(fs[i].ty, seen);
              if found {
                return;
              }
            }
            i := i + 1;
          }
          found := false;
      }
    }
  }

  /** a holds b and a materialising field; b holds a. */
  const LOOP: Graph := map["a" := StructOf([FieldUse(false, None, false, Ref("b")),
      FieldUse(false, Some(true), false, Leaf)]),
                           "b" := StructOf([FieldUse(false, None, false, Ref("a"))])]

  lemma {:induction false} LoopReaches()
    ensures Closed(LOOP) && Reaches(LOOP, "b")
  {
    var p := ["b", "a"];
    var fa, fb := LOOP["a"].fields, LOOP["b"].fields;
    assert Walked(fb[0]) && Target(fb[0].ty) == Some("a") && Materialises(fa[1]);
    assert Contains(LOOP, "b", "a");
    assert Path(LOOP, p);
  }

  /** Asked about a: its field b comes back to a, which is on the way, and is remembered as false. */
  lemma {:induction false} AskedAFirst()
    ensures Closed(LOOP)
    ensures var first := SearchType(LOOP, Ref("a"), {}, map[]);
            first.found && "b" in first.cache && !first.cache["b"]
  {
    var fa, fb := LOOP["a"].fields, LOOP["b"].fields;
    assert fa[1..] == [fa[1]] && fb[1..] == [];
    var a, ab, none: map<string, bool> := {"a"}, {"a"} + {"b"}, map[];
    assert SearchFields(LOOP, fb, ab, none) == SearchFields(LOOP, [], ab, none) == Search(false, ab, none);
    var inner := Search(false, ab, none["b" := false]);
    assert SearchNamed(LOOP, LOOP["b"], "b", ab, none) == Search(false, ab, none);
    assert SearchType(LOOP, Ref("b"), a, none) == inner;
    assert SearchFields(LOOP, [fa[1]], ab, inner.cache) == Search(true, ab, inner.cache);
    assert SearchFields(LOOP, fa, a, none) == Search(true, ab, inner.cache);
    assert {} + {"a"} == a;
    assert SearchNamed(LOOP, LOOP["a"], "a", a, none) == Search(true, ab, inner.cache);
    var first := SearchType(LOOP, Ref("a"), {}, none);
    assert first == Search(true, ab, inner.cache["a" := true]);
    assert "b" in first.cache && !first.cache["b"];
  }

  lemma {:induction false} AskedBAlone()
    ensures Closed(LOOP) && SearchType(LOOP, Ref("b"), {}, map[]).found
  {
    var fa, fb := LOOP["a"].fields, LOOP["b"].fields;
    assert fa[1..] == [fa[1]];
    var a, ab, none: map<string, bool> := {"a"}, {"a"} + {"b"}, map[];
    var b, ba := {"b"}, {"b"} + {"a"};
    assert ba == ab && {} + {"b"} == b;
    assert SearchType(LOOP, Ref("b"), ab, none) == Search(false, ab, none);
    assert SearchFields(LOOP, fa, ab, none) == SearchFields(LOOP, [fa[1]], ab, none) == Search(true, ab, none);
    assert SearchNamed(LOOP, LOOP["a"], "a", ab, none).found;
    assert SearchType(LOOP, Ref("a"), b, none).found;
    assert SearchFields(LOOP, fb, b, none).found;
    assert SearchNamed(LOOP, LOOP["b"], "b", b, none).found;
  }

  /** On a cyclic graph the answer depends on the order of the queries: asked about a first, the cache is wrong about
      b. */
  lemma {:induction false} CyclicCacheLies()
    ensures Closed(LOOP) && Reaches(LOOP, "b")
    ensures var first := SearchType(LOOP, Ref("a"), {}, map[]);
            first.found && !SearchType(LOOP, Ref("b"), {}, first.cache).found
    ensures SearchType(LOOP, Ref("b"), {}, map[]).found
  {
    hide SearchNamed, SearchFields;
    LoopReaches();
    AskedAFirst();
    AskedBAlone();
  }
}
