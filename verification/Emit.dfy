/** What the generated SizeGSBM and MarshalGSBM do for a type: the size walk, and the write calls with the choice, at
    every length prefix, between a size computed beforehand and a region measured by the writer. */
module Emit {
  import opened Basics
  import opened Varint
  import opened Ops
  import opened Schema
  import opened Generated

  /** Reaches a materialising codec along what the encoder writes. */
  predicate Mat(t: Ty)
    decreases t, 1
  {
    match t
    case TCustom(kind, _) => kind == Materializing
    case TSlice(elem, _) => Mat(elem)
    case TMap(_, val) => Mat(val)
    case TOpt(target, _) => Mat(target)
    case TStruct(fs) => MatFields(fs)
    case _ => false
  }

  predicate MatFields(fs: seq<Field>)
    decreases fs, 2
  {
    exists i :: 0 <= i < |fs| && MatField(fs[i])
  }

  predicate MatField(f: Field)
    decreases f, 0
  {
    f.state != Deprecated && !f.idRef && Mat(f.ty)
  }

  function SizeDelim(n: nat): nat { VarintLen(n) + n }

  function SizeInt(i: int, signed: bool): nat {
    if signed then VarintLen(Zigzag(i)) else if i >= 0 then VarintLen(i) else 0
  }

  function SizeKey(kt: KeyTy, k: Key): nat {
    match (kt, k)
    case (KBool, BoolKey(_)) => 1
    case (KInt(x), IntKey(i)) => SizeInt(i, x.signed)
    case (KStr, StrKey(s)) => SizeDelim(|s|)
    case _ => 0
  }

  /** The analytic size of a value, computed without writing it. */
  ghost function Size(t: Ty, v: Val): nat
    decreases v, 1
  {
    match (t, v)
    case (TBool, VBool(_)) => 1
    case (TInt(x), VInt(i)) => SizeInt(i, x.signed)
    case (TFix(width), VBits(_)) => width
    case (TStr, VStr(s)) => SizeDelim(|s|)
    case (TCustom(_, _), VStr(s)) => SizeDelim(|s|)
    // the codec is run once more, and may answer differently then
    case (TCustom(_, _), VLive(gen)) => (match gen(0) case None => 0 case Some(s) => SizeDelim(|s|))
    case (TSlice(elem, _), VSlice(es)) => SizeDelim(VarintLen(|es|) + SizeElems(elem, es))
    case (TMap(kt, vt), VMap(m)) => SizeDelim(VarintLen(|m|) + SizeEntries(kt, vt, v, Sorted(m.Keys)))
    case (TOpt(_, _), VNil) => SizeDelim(1)
    case (TOpt(target, elide), VSome(x)) => SizeDelim(if elide && IsZero(x) then 1 else 1 + SizeInline(target, x))
    case (TStruct(fs), VStruct(live, vs)) => SizeDelim(SizeFields(fs, live, vs))
    case _ => 0
  }

  ghost function SizeInline(t: Ty, v: Val): nat
    decreases v, 2
  {
    match (t, v)
    case (TStruct(fs), VStruct(live, vs)) => SizeFields(fs, live, vs)
    case _ => Size(t, v)
  }

  ghost function SizeElems(t: Ty, es: seq<Val>): nat
    decreases es, 0
  {
    if |es| == 0 then 0 else Size(t, es[0]) + SizeElems(t, es[1..])
  }

  ghost function SizeEntries(kt: KeyTy, vt: Ty, v: Val, ks: seq<Key>): nat
    requires v.VMap?
    decreases v, 0, |ks|
  {
    if |ks| == 0 then 0
    else if ks[0] !in v.entries then SizeEntries(kt, vt, v, ks[1..])
    else SizeKey(kt, ks[0]) + Size(vt, v.entries[ks[0]]) + SizeEntries(kt, vt, v, ks[1..])
  }

  ghost function SizeFields(fs: seq<Field>, live: set<nat>, vs: seq<Val>): nat
    decreases vs, 0
  {
    if |fs| == 0 || |vs| == 0 then 0 else SizeField(fs[0], live, vs[0]) + SizeFields(fs[1..], live, vs[1..])
  }

  ghost function SizeField(f: Field, live: set<nat>, v: Val): nat
    decreases v, 3
  {
    if !Written(f, live, v) then 0 else VarintLen(f.tag * 8 + WireOf(f.ty)) + SizePayload(f, v)
  }

  ghost function SizePayload(f: Field, v: Val): nat
    decreases v, 2
  {
    if !f.idRef then Size(f.ty, v) else if v.VSome? then Size(f.ty, v.target) else 0
  }

  lemma {:induction false} DelimLength(body: seq<byte>)
    ensures |Delim(body)| == SizeDelim(|body|)
  {
    UvarintLength(|body|);
  }

  lemma {:induction false} IntLength(i: int, signed: bool)
    ensures |IntBytes(i, signed)| == SizeInt(i, signed)
  {
    if signed {
      UvarintLength(Zigzag(i));
    } else if i >= 0 {
      UvarintLength(i);
    }
  }

  lemma {:induction false} KeyLength(kt: KeyTy, k: Key)
    ensures |EncKey(kt, k)| == SizeKey(kt, k)
  {
    match (kt, k)
    case (KInt(x), IntKey(i)) => IntLength(i, x.signed);
    case (KStr, StrKey(s)) => DelimLength(s);
    case _ =>
  }

  /** Lockstep: SizeGSBM counts exactly the bytes MarshalGSBM writes. */
  lemma {:induction false} SizeExact(t: Ty, v: Val)
    requires CanEnc(t, v)
    ensures Size(t, v) == |Enc(t, v)|
    decreases v, 1
  {
    match (t, v)
    case (TInt(x), VInt(i)) => IntLength(i, x.signed);
    case (TFix(width), VBits(bits)) => LittleEndianLength(width, bits);
    case (TStr, VStr(s)) => DelimLength(s);
    case (TCustom(_, _), VStr(s)) => DelimLength(s);
    case (TSlice(elem, _), VSlice(es)) =>
      SizeElemsExact(elem, es);
      UvarintLength(|es|);
      DelimLength(Uvarint(|es|) + EncElems(elem, es));
    case (TMap(kt, vt), VMap(m)) =>
      SortedLists(m.Keys);
      SizeEntriesExact(kt, vt, v, Sorted(m.Keys));
      UvarintLength(|m|);
      DelimLength(Uvarint(|m|) + EncEntries(kt, vt, v, Sorted(m.Keys)));
    case (TOpt(_, _), VNil) => DelimLength([0]);
    case (TOpt(target, elide), VSome(x)) =>
      if elide && IsZero(x) {
        DelimLength([3]);
      } else {
        SizeInlineExact(target, x);
        DelimLength([1] + Inline(target, x));
      }
    case (TStruct(fs), VStruct(live, vs)) =>
      SizeFieldsExact(fs, live, vs);
      DelimLength(EncFields(fs, live, vs));
    case _ =>
  }

  lemma {:induction false} SizeInlineExact(t: Ty, v: Val)
    requires CanEnc(t, v)
    ensures SizeInline(t, v) == |Inline(t, v)|
    decreases v, 2
  {
    match (t, v)
    case (TStruct(fs), VStruct(live, vs)) => SizeFieldsExact(fs, live, vs);
    case _ => SizeExact(t, v);
  }

  lemma {:induction false} SizeElemsExact(t: Ty, es: seq<Val>)
    requires forall i :: 0 <= i < |es| ==> CanEnc(t, es[i])
    ensures SizeElems(t, es) == |EncElems(t, es)|
    decreases es, 0
  {
    hide Enc, Size, CanEnc;
    if |es| > 0 {
      SizeExact(t, es[0]);
      SizeElemsExact(t, es[1..]);
    }
  }

  lemma {:induction false} SizeEntriesExact(kt: KeyTy, vt: Ty, v: Val, ks: seq<Key>)
    requires v.VMap? && forall k :: k in v.entries ==> CanEnc(vt, v.entries[k])
    ensures SizeEntries(kt, vt, v, ks) == |EncEntries(kt, vt, v, ks)|
    decreases v, 0, |ks|
  {
    hide Enc, Size, CanEnc;
    if |ks| > 0 {
      KeyLength(kt, ks[0]);
      if ks[0] in v.entries {
        SizeExact(vt, v.entries[ks[0]]);
      }
      SizeEntriesExact(kt, vt, v, ks[1..]);
    }
  }

  lemma {:induction false} SizeFieldsExact(fs: seq<Field>, live: set<nat>, vs: seq<Val>)
    requires |fs| == |vs| && forall i :: 0 <= i < |fs| && Written(fs[i], live, vs[i]) ==> CanEncField(fs[i], vs[i])
    ensures SizeFields(fs, live, vs) == |EncFields(fs, live, vs)|
    decreases vs, 0
  {
    hide Enc, Size, CanEnc;
    if |fs| > 0 {
      var f, v := fs[0], vs[0];
      if Written(f, live, v) {
        UvarintLength(f.tag * 8 + WireOf(f.ty));
        SizePayloadExact(f, v);
      }
      assert forall i :: 0 <= i < |fs[1..]| ==> fs[1..][i] == fs[i + 1] && vs[1..][i] == vs[i + 1];
      SizeFieldsExact(fs[1..], live, vs[1..]);
    }
  }

  lemma {:induction false} SizePayloadExact(f: Field, v: Val)
    requires CanEncField(f, v)
    ensures SizePayload(f, v) == |Payload(f, v)|
    decreases v, 2
  {
    if !f.idRef {
      SizeExact(f.ty, v);
    } else if v.VSome? {
      SizeExact(f.ty, v.target);
    }
  }

  /** BeginLengthDelim ... EndLengthDelim, or WriteLength of a size computed beforehand. */
  function Wrap(measured: bool, size: nat, inner: seq<Op>): seq<Op> {
    if measured then [Measured(size % TWO_64, inner)] else [Region(inner)]
  }

  /** The range check of emitIntEncode, then the varint. */
  function EmitInt(x: IntTy, i: int): seq<Op>
    requires InWidth(i, x.go, x.signed)
  {
    if x.wire < x.go && !InWidth(i, x.wire, x.signed) then [Fail(IntegerOverflow)]
    else if x.signed then [Svar(i)] else [Uvar(i)]
  }

  function EmitKey(kt: KeyTy, k: Key): seq<Op>
    requires KeyHas(kt, k)
  {
    match kt
    case KBool => [Bool(k.b)]
    case KInt(x) => EmitInt(x, k.i)
    case KStr => [Text(k.s)]
  }

  /** The write calls for a value without its key. */
  ghost function EmitVal(t: Ty, v: Val): seq<Op>
    requires Has(t, v)
    decreases v, 1
  {
    match t
    case TBool => [Bool(v.b)]
    case TInt(x) => EmitInt(x, v.i)
    case TFix(width) => [Fixed(width, v.bits)]
    case TStr => [Text(v.s)]
    case TCustom(kind, site) =>
      if v.VLive? then [Cached(site, Values, v.gen)]
      else if kind == Materializing then (var s: blob := v.s; [Cached(site, Values, (n: nat) => Some(s))])
      else [Text(v.s)]
    case TSlice(elem, _) => Wrap(!Mat(elem), VarintLen(|v.elems|) + SizeElems(elem, v.elems), [Uvar(|v.elems|)]
        + EmitElems(elem, v.elems))
    case TMap(kt, vt) =>
      var ks := Keys(v.entries);
      Wrap(!Mat(vt), VarintLen(|v.entries|) + SizeEntries(kt, vt, v, ks), [Uvar(|v.entries|)]
          + EmitEntries(kt, vt, v, ks))
    // a pointer that is a field
    case TOpt(target, elide) => [Region(EmitOpt(target, elide, v))]
    case TStruct(fs) => Wrap(!Mat(t), SizeFields(fs, v.live, v.vals), EmitFields(fs, v.live, v.vals))
  }

  ghost function Keys(m: map<Key, Val>): (ks: seq<Key>)
    ensures ks == Sorted(m.Keys) && forall k :: k in ks <==> k in m
  {
    SortedLists(m.Keys);
    Sorted(m.Keys)
  }

  ghost function EmitOpt(target: Ty, elide: bool, v: Val): seq<Op>
    requires v.VNil? || (v.VSome? && Has(target, v.target))
    decreases v, 0
  {
    if v.VNil? then [Presence(Nil)]
    else if elide && IsZero(v.target) then [Presence(PresenceState.Zero)]
    else [Presence(NonZero)] + EmitInline(target, v.target)
  }

  ghost function EmitInline(t: Ty, v: Val): seq<Op>
    requires Has(t, v)
    decreases v, 2
  {
    match t
    case TStruct(fs) => EmitFields(fs, v.live, v.vals)
    case _ => EmitVal(t, v)
  }

  /** A slice element; for a pointer the length is one byte more than the size of its struct. */
  ghost function EmitElem(t: Ty, v: Val): seq<Op>
    requires Has(t, v)
    decreases v, 2
  {
    match t
    case TOpt(target, elide) => Wrap(!Mat(t), SizeOpt(target, elide, v), EmitOpt(target, elide, v))
    case _ => EmitVal(t, v)
  }

  ghost function SizeOpt(target: Ty, elide: bool, v: Val): nat
    requires v.VNil? || v.VSome?
  {
    if v.VNil? || (elide && IsZero(v.target)) then 1 else 1 + SizeInline(target, v.target)
  }

  ghost function EmitElems(t: Ty, es: seq<Val>): seq<Op>
    requires forall i :: 0 <= i < |es| ==> Has(t, es[i])
    decreases es, 0
  {
    if |es| == 0 then [] else EmitElem(t, es[0]) + EmitElems(t, es[1..])
  }

  ghost function EmitEntries(kt: KeyTy, vt: Ty, v: Val, ks: seq<Key>): seq<Op>
    requires v.VMap? && forall k :: k in ks ==> k in v.entries && KeyHas(kt, k) && Has(vt, v.entries[k])
    decreases v, 0, |ks|
  {
    if |ks| == 0 then []
    else EmitKey(kt, ks[0]) + EmitVal(vt, v.entries[ks[0]]) + EmitEntries(kt, vt, v, ks[1..])
  }

  ghost function EmitFields(fs: seq<Field>, live: set<nat>, vs: seq<Val>): seq<Op>
    requires |vs| == |fs| && forall i :: 0 <= i < |fs| ==> HasField(fs[i], live, vs[i])
    decreases vs, 0
  {
    if |fs| == 0 then [] else EmitField(fs[0], live, vs[0]) + EmitFields(fs[1..], live, vs[1..])
  }

  ghost function EmitField(f: Field, live: set<nat>, v: Val): seq<Op>
    requires HasField(f, live, v)
    decreases v, 3
  {
    if !Written(f, live, v) then []
    else [Tag(f.tag, WireOf(f.ty))] + if f.idRef then EmitVal(f.ty, v.target) else EmitVal(f.ty, v)
  }

  lemma {:induction false} WrapBare(measured: bool, size: nat, inner: seq<Op>)
    requires PacedBody(inner)
    ensures Bare(Wrap(measured, size, inner))
  {
  }

  lemma {:induction false} BareAppend(a: seq<Op>, b: seq<Op>)
    requires Bare(a) && Bare(b)
    ensures Bare(a + b) && PacedBody(a + b)
  {
  }

  /** Generated code is paced: a presence byte only ever follows the length of its own region, so a stream of it stays
      near its threshold. */
  lemma {:induction false} EmitPaced(t: Ty, v: Val)
    requires GoodTy(t) && Has(t, v)
    ensures Bare(EmitVal(t, v))
    decreases v, 1
  {
    hide Paced, PacedBody, Bare, GoodTy, Has, Wrap;
    match t
    case TSlice(_, _) => SlicePaced(t, v);
    case TMap(_, _) => MapPaced(t, v);
    case TOpt(_, _) => OptPaced(t, v);
    case TStruct(_) => StructPaced(t, v);
    case _ => LeafBare(t, v);
  }

  lemma {:induction false} LeafBare(t: Ty, v: Val)
    requires GoodTy(t) && Has(t, v) && !(t.TSlice? || t.TMap? || t.TOpt? || t.TStruct?)
    ensures Bare(EmitVal(t, v))
  {
  }

  lemma {:induction false} SlicePaced(t: Ty, v: Val)
    requires GoodTy(t) && Has(t, v) && t.TSlice?
    ensures Bare(EmitVal(t, v))
    decreases v, 0
  {
    ElemsPaced(t.elem, v.elems);
    hide Paced, PacedBody, Wrap, Mat, SizeElems, EmitElems;
    var head := [Uvar(|v.elems|)];
    OneBare(head[0]);
    BareAppend(head, EmitElems(t.elem, v.elems));
    WrapBare(!Mat(t.elem), VarintLen(|v.elems|) + SizeElems(t.elem, v.elems), head + EmitElems(t.elem, v.elems));
  }

  lemma {:induction false} OneBare(op: Op)
    requires op.Uvar? || op.Svar? || op.Bool? || op.Text? || op.Tag? || op.Fail?
    ensures Bare([op])
  {
  }

  lemma {:induction false} ElemsPaced(t: Ty, es: seq<Val>)
    requires GoodTy(t) && forall i :: 0 <= i < |es| ==> Has(t, es[i])
    ensures Bare(EmitElems(t, es))
    decreases es, 0
  {
    hide Paced, GoodTy, Has, EmitElem;
    if |es| > 0 {
      ElemPaced(t, es[0]);
      ElemsPaced(t, es[1..]);
      BareAppend(EmitElem(t, es[0]), EmitElems(t, es[1..]));
    }
  }

  lemma {:induction false} ElemPaced(t: Ty, v: Val)
    requires GoodTy(t) && Has(t, v)
    ensures Bare(EmitElem(t, v))
    decreases v, 2
  {
    if t.TOpt? {
      OptBody(t.target, t.elide, v);
      hide Paced, PacedBody, Wrap, Mat, SizeOpt, EmitOpt;
      WrapBare(!Mat(t), SizeOpt(t.target, t.elide, v), EmitOpt(t.target, t.elide, v));
    } else {
      EmitPaced(t, v);
    }
  }

  lemma {:induction false} MapPaced(t: Ty, v: Val)
    requires GoodTy(t) && Has(t, v) && t.TMap?
    ensures Bare(EmitVal(t, v))
    decreases v, 0, |v.entries|, 1
  {
    var ks := Keys(v.entries);
    EntriesPaced(t.key, t.val, v, ks);
    hide Paced, PacedBody, Wrap, Mat, SizeEntries, EmitEntries;
    var head := [Uvar(|v.entries|)];
    OneBare(head[0]);
    BareAppend(head, EmitEntries(t.key, t.val, v, ks));
    WrapBare(!Mat(t.val), VarintLen(|v.entries|) + SizeEntries(t.key, t.val, v, ks),
             head + EmitEntries(t.key, t.val, v, ks));
  }

  lemma {:induction false} KeyBare(kt: KeyTy, k: Key)
    requires KeyHas(kt, k)
    ensures Bare(EmitKey(kt, k))
  {
  }

  lemma {:induction false} EntriesPaced(kt: KeyTy, vt: Ty, v: Val, ks: seq<Key>)
    requires v.VMap? && GoodTy(vt)
    requires forall k :: k in ks ==> k in v.entries && KeyHas(kt, k) && Has(vt, v.entries[k])
    ensures Bare(EmitEntries(kt, vt, v, ks))
    decreases v, 0, |ks|, 0
  {
    hide Paced, GoodTy, Has, EmitKey, EmitVal;
    if |ks| > 0 {
      KeyBare(kt, ks[0]);
      EmitPaced(vt, v.entries[ks[0]]);
      EntriesPaced(kt, vt, v, ks[1..]);
      BareAppend(EmitKey(kt, ks[0]), EmitVal(vt, v.entries[ks[0]]));
      BareAppend(EmitKey(kt, ks[0]) + EmitVal(vt, v.entries[ks[0]]), EmitEntries(kt, vt, v, ks[1..]));
    }
  }

  lemma {:induction false} OptPaced(t: Ty, v: Val)
    requires GoodTy(t) && Has(t, v) && t.TOpt?
    ensures Bare(EmitVal(t, v))
    decreases v, 0, 1
  {
    OptBody(t.target, t.elide, v);
  }

  lemma {:induction false} OptBody(target: Ty, elide: bool, v: Val)
    requires GoodTy(target) && (v.VNil? || (v.VSome? && Has(target, v.target)))
    ensures PacedBody(EmitOpt(target, elide, v))
    decreases v, 0, 0
  {
    if v.VSome? && !(elide && IsZero(v.target)) {
      InlinePaced(target, v.target);
    }
  }

  lemma {:induction false} InlinePaced(t: Ty, v: Val)
    requires GoodTy(t) && Has(t, v)
    ensures Bare(EmitInline(t, v))
    decreases v, 2
  {
    if t.TStruct? {
      FieldsPaced(t.fields, v.live, v.vals);
    } else {
      EmitPaced(t, v);
    }
  }

  lemma {:induction false} StructPaced(t: Ty, v: Val)
    requires GoodTy(t) && Has(t, v) && t.TStruct?
    ensures Bare(EmitVal(t, v))
    decreases v, 0
  {
    FieldsPaced(t.fields, v.live, v.vals);
    hide Paced, Wrap, Mat, SizeFields, EmitFields;
    WrapBare(!Mat(t), SizeFields(t.fields, v.live, v.vals), EmitFields(t.fields, v.live, v.vals));
  }

  /** So is MarshalGSBM of a struct. */
  lemma {:induction false} FieldsPaced(fs: seq<Field>, live: set<nat>, vs: seq<Val>)
    requires |vs| == |fs| && forall i :: 0 <= i < |fs| ==> GoodField(fs[i]) && HasField(fs[i], live, vs[i])
    ensures Bare(EmitFields(fs, live, vs)) && PacedBody(EmitFields(fs, live, vs))
    decreases vs, 0
  {
    hide Paced, GoodField, HasField, EmitField;
    if |fs| > 0 {
      FieldPaced(fs[0], live, vs[0]);
      FieldsPaced(fs[1..], live, vs[1..]);
      BareAppend(EmitField(fs[0], live, vs[0]), EmitFields(fs[1..], live, vs[1..]));
    }
  }

  lemma {:induction false} FieldPaced(f: Field, live: set<nat>, v: Val)
    requires GoodField(f) && HasField(f, live, v)
    ensures Bare(EmitField(f, live, v))
    decreases v, 3
  {
    if Written(f, live, v) {
      var x := if f.idRef then v.target else v;
      EmitPaced(f.ty, x);
      hide Paced, EmitVal, GoodTy, Has;
      OneBare(Tag(f.tag, WireOf(f.ty)));
      BareAppend([Tag(f.tag, WireOf(f.ty))], EmitVal(f.ty, x));
    }
  }
}
