/** The generated SizeGSBM as it runs: it ranges over a map in whatever order the map hands out its keys. */
module SizeWalk {
  import opened Varint
  import opened Schema
  import opened Generated
  import opened Emit

  lemma {:induction false} EntriesSplit(kt: KeyTy, vt: Ty, v: Val, a: seq<Key>, b: seq<Key>)
    requires v.VMap?
    ensures SizeEntries(kt, vt, v, a + b) == SizeEntries(kt, vt, v, a) + SizeEntries(kt, vt, v, b)
    decreases |a|
  {
    hide Size, SizeKey;
    if |a| == 0 {
      assert a + b == b;
    } else {
      assert (a + b)[0] == a[0] && (a + b)[1..] == a[1..] + b;
      EntriesSplit(kt, vt, v, a[1..], b);
    }
  }

  /** The sum over a map's entries is the same in any order. */
  lemma {:induction false} AnyOrder(kt: KeyTy, vt: Ty, v: Val, a: seq<Key>, b: seq<Key>)
    requires v.VMap? && multiset(a) == multiset(b)
    ensures SizeEntries(kt, vt, v, a) == SizeEntries(kt, vt, v, b)
    decreases |a|
  {
    hide Size, SizeKey;
    if |a| == 0 {
      Empty(b);
    } else {
      assert a[0] in multiset(a);
      var i :| 0 <= i < |b| && b[i] == a[0];
      var x, y := b[..i], b[i + 1..];
      RemoveAt(a, b, i);
      EntriesSplit(kt, vt, v, x, [a[0]] + y);
      EntriesSplit(kt, vt, v, [a[0]], y);
      EntriesSplit(kt, vt, v, x, y);
      EntriesSplit(kt, vt, v, [a[0]], a[1..]);
      assert b == x + ([a[0]] + y) && a == [a[0]] + a[1..];
      AnyOrder(kt, vt, v, a[1..], x + y);
    }
  }

  lemma {:induction false} Empty(b: seq<Key>)
    requires multiset(b) == multiset{}
    ensures b == []
  {
    assert |multiset(b)| == |b|;
  }

  lemma {:induction false} Without(b: seq<Key>, i: nat)
    requires i < |b|
    ensures multiset(b) == multiset(b[..i] + b[i + 1..]) + multiset{b[i]}
  {
    var x, y := b[..i], b[i + 1..];
    assert b == x + ([b[i]] + y);
    assert multiset([b[i]] + y) == multiset{b[i]} + multiset(y);
    assert multiset(x + y) == multiset(x) + multiset(y);
  }

  lemma {:induction false} RemoveAt(a: seq<Key>, b: seq<Key>, i: nat)
    requires |a| > 0 && i < |b| && b[i] == a[0] && multiset(a) == multiset(b)
    ensures multiset(a[1..]) == multiset(b[..i] + b[i + 1..])
  {
    Without(b, i);
    Without(a, 0);
    assert a[..0] + a[1..] == a[1..];
    SameRest(multiset(a[1..]), multiset(b[..i] + b[i + 1..]), a[0]);
  }

  lemma {:induction false} SameRest(p: multiset<Key>, q: multiset<Key>, k: Key)
    requires p + multiset{k} == q + multiset{k}
    ensures p == q
  {
    assert p == (p + multiset{k}) - multiset{k};
    assert q == (q + multiset{k}) - multiset{k};
  }

  /** Two listings of the same keys, each key once. */
  lemma {:induction false} SameKeys(a: seq<Key>, s: set<Key>)
    requires multiset(a) == multiset(s)
    ensures multiset(a) == multiset(Sorted(s))
  {
    SortedLists(s);
    OnceEach(Sorted(s), s);
  }

  lemma {:induction false} OnceEach(ks: seq<Key>, s: set<Key>)
    requires Ascending(ks) && Lists(ks, s)
    ensures multiset(ks) == multiset(s)
    decreases |ks|
  {
    if |ks| == 0 {
      assert ks == [] && s == {};
      assert multiset(ks) == multiset{};
      assert multiset(s) == multiset{};
    } else {
      TailLists(ks, s);
      OnceEach(ks[1..], s - {ks[0]});
      PutBack(ks, s);
    }
  }

  lemma {:induction false} PutBack(ks: seq<Key>, s: set<Key>)
    requires |ks| > 0 && ks[0] in s && multiset(ks[1..]) == multiset(s - {ks[0]})
    ensures multiset(ks) == multiset(s)
  {
    assert ks == [ks[0]] + ks[1..];
    assert forall k :: multiset(s)[k] == multiset(s - {ks[0]})[k] + if k == ks[0] then 1 else 0;
  }

  method SizeValue(t: Ty, v: Val) returns (n: nat)
    ensures n == Size(t, v)
    decreases v, 1
  {
    match (t, v)
    case (TBool, VBool(_)) => n := 1;
    case (TInt(x), VInt(i)) => n := SizeInt(i, x.signed);
    case (TFix(width), VBits(_)) => n := width;
    case (TStr, VStr(s)) => n := SizeDelim(|s|);
    case (TCustom(_, _), VStr(s)) => n := SizeDelim(|s|);
    case (TCustom(_, _), VLive(gen)) => n := match gen(0) case None => 0 case Some(s) => SizeDelim(|s|);
    case (TSlice(elem, _), VSlice(es)) =>
      var body := SizeSlice(elem, es);
      n := SizeDelim(body);
    case (TMap(kt, vt), VMap(m)) =>
      var body := SizeMap(kt, vt, v);
      n := SizeDelim(body);
    case (TOpt(_, _), VNil) => n := SizeDelim(1);
    case (TOpt(target, elide), VSome(x)) =>
      var body := 1;
      if !(elide && IsZero(x)) {
        var more := SizeInlined(target, x);
        body := 1 + more;
      }
      n := SizeDelim(body);
    case (TStruct(fs), VStruct(live, vs)) =>
      var body := SizeStruct(fs, live, vs);
      n := SizeDelim(body);
    case _ => n := 0;
  }

  method SizeInlined(t: Ty, v: Val) returns (n: nat)
    ensures n == SizeInline(t, v)
    decreases v, 2
  {
    match (t, v)
    case (TStruct(fs), VStruct(live, vs)) => n := SizeStruct(fs, live, vs);
    case _ => n := SizeValue(t, v);
  }

  method SizeSlice(t: Ty, es: seq<Val>) returns (body: nat)
    ensures body == VarintLen(|es|) + SizeElems(t, es)
    decreases es, 0
  {
    body := VarintLen(|es|);
    var i := 0;
    while i < |es|
      invariant 0 <= i <= |es|
      invariant body + SizeElems(t, es[i..]) == VarintLen(|es|) + SizeElems(t, es)
    {
      var n := SizeValue(t, es[i]);
      assert es[i..][0] == es[i] && es[i..][1..] == es[i + 1..];
      body := body + n;
      i := i + 1;
    }
  }

  /** The keys come in any order; the sum is the one over the sorted keys. */
  method SizeMap(kt: KeyTy, vt: Ty, v: Val) returns (body: nat)
    requires v.VMap?
    ensures body == VarintLen(|v.entries|) + SizeEntries(kt, vt, v, Sorted(v.entries.Keys))
    decreases v, 0
  {
    body := VarintLen(|v.entries|);
    var rest := v.entries.Keys;
    ghost var seen: seq<Key> := [];
    while rest != {}
      invariant rest <= v.entries.Keys && multiset(seen) + multiset(rest) == multiset(v.entries.Keys)
      invariant body == VarintLen(|v.entries|) + SizeEntries(kt, vt, v, seen)
      decreases |rest|
    {
      var k :| k in rest;
      var n := SizeValue(vt, v.entries[k]);
      EntriesSplit(kt, vt, v, seen, [k]);
      assert SizeEntries(kt, vt, v, [k]) == SizeKey(kt, k) + n;
      body := body + SizeKey(kt, k) + n;
      rest := rest - {k};
      seen := seen + [k];
    }
    SameKeys(seen, v.entries.Keys);
    AnyOrder(kt, vt, v, seen, Sorted(v.entries.Keys));
  }

  method SizeStruct(fs: seq<Field>, live: set<nat>, vs: seq<Val>) returns (n: nat)
    ensures n == SizeFields(fs, live, vs)
    decreases vs, 0
  {
    n := 0;
    var i := 0;
    while i < |fs| && i < |vs|
      invariant 0 <= i <= |fs| && i <= |vs|
      invariant n + SizeFields(fs[i..], live, vs[i..]) == SizeFields(fs, live, vs)
    {
      assert fs[i..][0] == fs[i] && vs[i..][0] == vs[i];
      assert fs[i..][1..] == fs[i + 1..] && vs[i..][1..] == vs[i + 1..];
      if Written(fs[i], live, vs[i]) {
        var m := SizeOfPayload(fs[i], vs[i]);
        n := n + VarintLen(fs[i].tag * 8 + WireOf(fs[i].ty)) + m;
      }
      i := i + 1;
    }
  }

  method SizeOfPayload(f: Field, v: Val) returns (n: nat)
    ensures n == SizePayload(f, v)
    decreases v, 2
  {
    n := 0;
    if !f.idRef {
      n := SizeValue(f.ty, v);
    } else if v.VSome? {
      n := SizeValue(f.ty, v.target);
    }
  }
}
