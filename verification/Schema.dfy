/** The types a schema can describe, the Go values of those types, and the order of map keys.

    A validated schema has no cycle of containment, so a type is a finite tree: a named struct stands for its fields.
    Named types stand for what they are underlying. */
module Schema {
  import opened Basics
  import opened Ops
  import opened Wire

  /** An integer kind: the width its Go type holds, the width it promises on the wire, its sign. */
  datatype IntTy = IntTy(go: nat, wire: nat, signed: bool)

  datatype KeyTy = KBool | KInt(num: IntTy) | KStr

  datatype Key = BoolKey(b: bool) | IntKey(i: int) | StrKey(s: seq<byte>)

  datatype CodecKind = Analytic | Materializing | Streaming

  datatype Ty =
    | TBool
    | TInt(num: IntTy)
    // a required float, as the 4 or 8 bytes of its bit pattern
    | TFix(width: nat)
    // string, []byte and names of them
    | TStr
    // a custom codec with a length-delimited payload; site is its callsite constant
    | TCustom(kind: CodecKind, site: nat)
    // elemSize is the element's size in memory
    | TSlice(elem: Ty, elemSize: nat)
    | TMap(key: KeyTy, val: Ty)
    // a pointer; elide: its zero value is written as a presence byte alone
    | TOpt(target: Ty, elide: bool)
    | TStruct(fields: seq<Field>)

  datatype Lifecycle = Active | CompatWrite | Deprecated

  /** idRef: a pointer of which only the target's identifier, of type ty, travels.
      hops: the embedded pointers on the way to a promoted field. */
  datatype Field = Field(tag: nat, ty: Ty, idRef: bool, state: Lifecycle, hops: set<nat>)

  datatype Val =
    // a nil pointer
    | VNil
    // a non-nil pointer
    | VSome(target: Val)
    | VBool(b: bool)
    | VInt(i: int)
    | VBits(bits: nat)
    | VStr(s: seq<byte>)
    // a value whose codec materialises it anew on every call
    | VLive(gen: nat -> Option<blob>)
    | VSlice(elems: seq<Val>)
    | VMap(entries: map<Key, Val>)
    // live: the embedded pointers that are not nil; a field out of reach holds its zero value here
    | VStruct(live: set<nat>, vals: seq<Val>)

  function Pow2(width: nat): nat {
    match width
    case 8 => 0x100
    case 16 => 0x1_0000
    case 32 => 0x1_0000_0000
    case _ => 0x1_0000_0000_0000_0000
  }

  predicate Width(w: nat) { w == 8 || w == 16 || w == 32 || w == 64 }

  /** i fits an integer of this width and sign. */
  predicate InWidth(i: int, width: nat, signed: bool) {
    if signed then -(Pow2(width) / 2) <= i < Pow2(width) / 2 else 0 <= i < Pow2(width)
  }

  predicate GoodInt(t: IntTy) { Width(t.go) && Width(t.wire) && t.wire <= t.go }

  predicate DistinctTags(fs: seq<Field>) {
    forall i, j :: 0 <= i < j < |fs| ==> fs[i].tag != fs[j].tag
  }

  /** What schema validation establishes about a type. Optional floats are not modelled. */
  predicate GoodTy(t: Ty)
    decreases t, 1
  {
    match t
    case TInt(x) => GoodInt(x)
    case TFix(width) => width == 4 || width == 8
    case TSlice(elem, _) => GoodTy(elem) && !elem.TCustom? && (elem.TOpt? ==> elem.target.TStruct?)
    case TMap(key, val) => (key.KInt? ==> GoodInt(key.num)) && GoodTy(val) && !val.TCustom? && !val.TOpt?
    case TOpt(target, elide) =>
      && GoodTy(target) && !(target.TFix? || target.TSlice? || target.TMap? || target.TOpt?)
      && (elide ==> target.TBool? || target.TInt? || target.TStr?)
    case TStruct(fs) => GoodFields(fs)
    case _ => true
  }

  predicate GoodFields(fs: seq<Field>)
    decreases fs, 2
  {
    DistinctTags(fs) && forall i :: 0 <= i < |fs| ==> GoodField(fs[i])
  }

  predicate GoodField(f: Field)
    decreases f, 0
  {
    1 <= f.tag <= MAX_TAG && GoodTy(f.ty) && (f.idRef ==> f.ty.TInt? || f.ty.TStr?)
  }

  /** The Go zero value; nil and empty slices and maps are one value here. */
  function Zero(t: Ty): Val
    decreases t, 1
  {
    match t
    case TBool => VBool(false)
    case TInt(_) => VInt(0)
    case TFix(_) => VBits(0)
    case TStr => VStr([])
    case TCustom(_, _) => VStr([])
    case TSlice(_, _) => VSlice([])
    case TMap(_, _) => VMap(map[])
    case TOpt(_, _) => VNil
    case TStruct(fs) => VStruct({}, ZeroFields(fs))
  }

  function ZeroFields(fs: seq<Field>): (vs: seq<Val>)
    ensures |vs| == |fs|
    ensures forall i :: 0 <= i < |fs| ==> vs[i] == ZeroField(fs[i])
    decreases fs, 2
  {
    if |fs| == 0 then [] else [ZeroField(fs[0])] + ZeroFields(fs[1..])
  }

  function ZeroField(f: Field): Val
    decreases f, 0
  {
    if f.idRef then VNil else Zero(f.ty)
  }

  predicate KeyHas(kt: KeyTy, k: Key) {
    match kt
    case KBool => k.BoolKey?
    case KInt(x) => k.IntKey? && InWidth(k.i, x.go, x.signed)
    case KStr => k.StrKey? && |k.s| < TWO_63
  }

  /** v is a Go value of type t. */
  ghost predicate Has(t: Ty, v: Val)
    decreases v, 1
  {
    match (t, v)
    case (TBool, VBool(_)) => true
    case (TInt(x), VInt(i)) => InWidth(i, x.go, x.signed)
    case (TFix(w), VBits(bits)) => bits < Pow256(w)
    case (TStr, VStr(s)) => |s| < TWO_63
    case (TCustom(_, _), VStr(s)) => |s| < TWO_63
    case (TCustom(kind, _), VLive(_)) => kind == Materializing
    case (TSlice(elem, _), VSlice(es)) => |es| < TWO_63 && forall i :: 0 <= i < |es| ==> Has(elem, es[i])
    case (TMap(kt, vt), VMap(m)) => |m| < TWO_63 && forall k :: k in m ==> KeyHas(kt, k) && Has(vt, m[k])
    case (TOpt(_, _), VNil) => true
    case (TOpt(target, _), VSome(x)) => Has(target, x)
    case (TStruct(fs), VStruct(live, vs)) => |vs| == |fs| && forall i :: 0 <= i < |fs| ==> HasField(fs[i], live, vs[i])
    case _ => false
  }

  ghost predicate HasField(f: Field, live: set<nat>, v: Val)
    decreases v, 2
  {
    && (if f.idRef then v.VNil? || (v.VSome? && Has(f.ty, v.target)) else Has(f.ty, v))
    && (f.hops <= live || v == ZeroField(f))
  }

  /** The field's tag goes on the wire: it is live, within reach, and not a nil id_ref. */
  predicate Written(f: Field, live: set<nat>, v: Val) {
    f.state != Deprecated && f.hops <= live && !(f.idRef && v.VNil?)
  }

  /** The wire type in a field's key. An id_ref carries its identifier's own. */
  function WireOf(t: Ty): nat {
    match t
    case TBool => VARINT
    case TInt(_) => VARINT
    case TFix(width) => if width == 4 then FIXED32 else FIXED64
    case _ => LENGTH_DELIM
  }

  /** The field with a given tag. */
  function Find(fs: seq<Field>, tag: nat): (r: Option<nat>)
    ensures r.Some? ==> r.value < |fs| && fs[r.value].tag == tag
    ensures r.None? ==> forall i :: 0 <= i < |fs| ==> fs[i].tag != tag
  {
    if |fs| == 0 then None
    else if fs[0].tag == tag then Some(0)
    else match Find(fs[1..], tag)
      case None => None
      case Some(i) => Some(i + 1)
  }

  /** The order the generated code sorts map keys in: false before true, integers, strings byte by byte. */
  predicate KeyLess(a: Key, b: Key) {
    match (a, b)
    case (BoolKey(x), BoolKey(y)) => !x && y
    case (IntKey(x), IntKey(y)) => x < y
    case (StrKey(x), StrKey(y)) => BytesLess(x, y)
    case (BoolKey(_), _) => true
    case (IntKey(_), StrKey(_)) => true
    case _ => false
  }

  predicate BytesLess(a: seq<byte>, b: seq<byte>) {
    if |b| == 0 then false
    else if |a| == 0 then true
    else if a[0] != b[0] then a[0] < b[0]
    else BytesLess(a[1..], b[1..])
  }

  lemma {:induction false} BytesTotal(a: seq<byte>, b: seq<byte>)
    ensures a == b || BytesLess(a, b) || BytesLess(b, a)
    ensures !(BytesLess(a, b) && BytesLess(b, a)) && !BytesLess(a, a)
  {
    if |a| > 0 && |b| > 0 {
      BytesTotal(a[1..], b[1..]);
      assert a == [a[0]] + a[1..] && b == [b[0]] + b[1..];
    }
    if |a| > 0 {
      BytesTotal(a[1..], a[1..]);
    }
  }

  lemma {:induction false} BytesTransitive(a: seq<byte>, b: seq<byte>, c: seq<byte>)
    requires BytesLess(a, b) && BytesLess(b, c)
    ensures BytesLess(a, c)
  {
    if |a| > 0 && a[0] == b[0] == c[0] {
      BytesTransitive(a[1..], b[1..], c[1..]);
    }
  }

  lemma {:induction false} KeyTotal(a: Key, b: Key)
    ensures a == b || KeyLess(a, b) || KeyLess(b, a)
    ensures !(KeyLess(a, b) && KeyLess(b, a)) && !KeyLess(a, a)
  {
    if a.StrKey? && b.StrKey? {
      BytesTotal(a.s, b.s);
    }
    if a.StrKey? {
      BytesTotal(a.s, a.s);
    }
  }

  lemma {:induction false} KeyTransitive(a: Key, b: Key, c: Key)
    requires KeyLess(a, b) && KeyLess(b, c)
    ensures KeyLess(a, c)
  {
    if a.StrKey? && b.StrKey? && c.StrKey? {
      BytesTransitive(a.s, b.s, c.s);
    }
  }

  predicate Ascending(ks: seq<Key>) {
    forall i, j :: 0 <= i < j < |ks| ==> KeyLess(ks[i], ks[j])
  }

  ghost predicate IsLeast(k: Key, s: set<Key>) {
    k in s && forall x :: x in s && x != k ==> KeyLess(k, x)
  }

  lemma {:induction false} LeastExists(s: set<Key>)
    requires s != {}
    ensures exists k :: IsLeast(k, s)
    decreases |s|
  {
    var x :| x in s;
    var rest := s - {x};
    if rest == {} {
      assert s == {x};
      assert IsLeast(x, s);
    } else {
      LeastExists(rest);
      var m :| IsLeast(m, rest);
      KeyTotal(x, m);
      var k := if KeyLess(x, m) then x else m;
      forall y | y in s && y != k ensures KeyLess(k, y) {
        if k == x && y != m {
          KeyTransitive(x, m, y);
        }
      }
      assert IsLeast(k, s);
    }
  }

  ghost function Least(s: set<Key>): (k: Key)
    requires s != {}
    ensures IsLeast(k, s)
  {
    LeastExists(s);
    var k :| IsLeast(k, s);
    k
  }

  ghost predicate Lists(ks: seq<Key>, s: set<Key>) {
    |ks| == |s| && forall k :: k in ks <==> k in s
  }

  /** A key set in order. */
  ghost function Sorted(s: set<Key>): (ks: seq<Key>)
    ensures |ks| == |s|
  {
    if s == {} then [] else [Least(s)] + Sorted(s - {Least(s)})
  }

  lemma {:induction false} ConsLists(k: Key, ks: seq<Key>, s: set<Key>)
    requires IsLeast(k, s) && Lists(ks, s - {k}) && Ascending(ks)
    ensures Lists([k] + ks, s) && Ascending([k] + ks)
  {
    var all := [k] + ks;
    forall x ensures x in all <==> x in s {
      assert x in all <==> x == k || x in ks;
    }
    forall i, j | 0 <= i < j < |all| ensures KeyLess(all[i], all[j]) {
      assert all[j] == ks[j - 1] && ks[j - 1] in ks;
    }
  }

  lemma {:induction false} SortedLists(s: set<Key>)
    ensures Lists(Sorted(s), s) && Ascending(Sorted(s))
  {
    if s != {} {
      var k := Least(s);
      SortedLists(s - {k});
      ConsLists(k, Sorted(s - {k}), s);
    }
  }

  /** Byte order: a is a proper prefix of b, or has the smaller byte where they first differ. */
  ghost predicate Before(a: seq<byte>, b: seq<byte>) { a < b || exists k: nat :: SmallerAt(a, b, k) }

  predicate SmallerAt(a: seq<byte>, b: seq<byte>, k: nat) { k < |a| && k < |b| && a[..k] == b[..k] && a[k] < b[k] }

  lemma {:induction false} BytesBefore(a: seq<byte>, b: seq<byte>)
    requires BytesLess(a, b)
    ensures Before(a, b)
  {
    if |a| > 0 {
      if a[0] != b[0] {
        assert SmallerAt(a, b, 0);
      } else {
        BytesBefore(a[1..], b[1..]);
        assert a == [a[0]] + a[1..] && b == [b[0]] + b[1..];
        if k: nat :| SmallerAt(a[1..], b[1..], k) {
          assert a[..k + 1] == [a[0]] + a[1..][..k] && b[..k + 1] == [b[0]] + b[1..][..k];
          assert SmallerAt(a, b, k + 1);
        }
      }
    }
  }

  /** The order the entries of a map are written in: integers ascending, false before true, strings byte by byte. */
  lemma {:induction false} SortedOrder(s: set<Key>, i: nat, j: nat)
    requires i < j < |Sorted(s)|
    ensures var a, b := Sorted(s)[i], Sorted(s)[j];
            && (a.IntKey? && b.IntKey? ==> a.i < b.i)
            && (a.BoolKey? && b.BoolKey? ==> !a.b && b.b)
            && (a.StrKey? && b.StrKey? ==> Before(a.s, b.s))
  {
    SortedLists(s);
    var a, b := Sorted(s)[i], Sorted(s)[j];
    assert KeyLess(a, b);
    if a.StrKey? && b.StrKey? {
      BytesBefore(a.s, b.s);
    }
  }

  lemma {:induction false} FirstIsLeast(ks: seq<Key>, s: set<Key>)
    requires Ascending(ks) && Lists(ks, s) && s != {}
    ensures ks != [] && ks[0] == Least(s)
  {
    var k := Least(s);
    assert k in ks;
    var i :| 0 <= i < |ks| && ks[i] == k;
    if i > 0 {
      assert ks[0] in ks;
      KeyTotal(ks[0], k);
    }
  }

  lemma {:induction false} TailLists(ks: seq<Key>, s: set<Key>)
    requires Ascending(ks) && Lists(ks, s) && ks != []
    ensures Lists(ks[1..], s - {ks[0]}) && Ascending(ks[1..])
  {
    forall x ensures x in ks[1..] <==> x in s - {ks[0]} {
      KeyTotal(ks[0], x);
      assert x in ks <==> x == ks[0] || x in ks[1..];
    }
  }

  /** However the keys were collected, sorting them ends in the same sequence. */
  lemma {:induction false} SortedUnique(ks: seq<Key>, s: set<Key>)
    requires Ascending(ks) && Lists(ks, s)
    ensures ks == Sorted(s)
    decreases |s|
  {
    if s != {} {
      FirstIsLeast(ks, s);
      TailLists(ks, s);
      SortedUnique(ks[1..], s - {ks[0]});
      Rejoin(ks, s);
    }
  }

  lemma {:induction false} Rejoin(ks: seq<Key>, s: set<Key>)
    requires s != {} && ks != [] && ks[0] == Least(s) && ks[1..] == Sorted(s - {ks[0]})
    ensures ks == Sorted(s)
  {
  }
}
