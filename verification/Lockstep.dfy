/** The generated marshal means its value: whatever its codecs answer, every length written up front is the length of
    what follows, and the bytes are the wire form of the value with each codec's answer in its place. */
module Lockstep {
  import opened Basics
  import opened Varint
  import opened Ops
  import opened Schema
  import opened Generated
  import opened Evolution
  import opened Emit

  /** w is v with the answers of its codecs filled in. */
  ghost predicate Frozen(v: Val, w: Val)
    decreases v
  {
    v == w ||
    match (v, w)
    case (VLive(gen), VStr(s)) => exists k :: gen(k) == Some(s)
    case (VSome(a), VSome(b)) => Frozen(a, b)
    case (VSlice(a), VSlice(b)) => |a| == |b| && forall i :: 0 <= i < |a| ==> Frozen(a[i], b[i])
    case (VMap(m), VMap(n)) => m.Keys == n.Keys && forall k :: k in m ==> Frozen(m[k], n[k])
    case (VStruct(l, a), VStruct(k, b)) => l == k && |a| == |b| && forall i :: 0 <= i < |a| ==> Frozen(a[i], b[i])
    case _ => false
  }

  /** Nothing in v makes marshal fail: integers fit their wire width, codecs always answer. */
  ghost predicate CanEmit(t: Ty, v: Val)
    decreases v, 1
  {
    match (t, v)
    case (TInt(x), VInt(i)) => InWidth(i, x.wire, x.signed)
    case (TCustom(_, _), VLive(gen)) => forall k :: gen(k).Some?
    case (TSlice(elem, _), VSlice(es)) => forall i :: 0 <= i < |es| ==> CanEmit(elem, es[i])
    case (TMap(kt, vt), VMap(m)) => forall k :: k in m ==> KeyFits(kt, k) && CanEmit(vt, m[k])
    case (TOpt(target, _), VSome(x)) => CanEmit(target, x)
    case (TStruct(fs), VStruct(live, vs)) =>
      |fs| == |vs| && forall i :: 0 <= i < |fs| && Written(fs[i], live, vs[i]) ==> CanEmitField(fs[i], vs[i])
    case _ => true
  }

  ghost predicate CanEmitField(f: Field, v: Val)
    decreases v, 2
  {
    if f.idRef && v.VSome? then CanEmit(f.ty, v.target) else CanEmit(f.ty, v)
  }

  /** The nodes lay down these bytes and claim no false length. */
  ghost predicate Means(nodes: seq<Ground>, bytes: seq<byte>) {
    |bytes| < TWO_64 ==> FlatAll(nodes) == bytes && AllTruthful(nodes)
  }

  /** What one marshal took the value to be. */
  ghost predicate Took(t: Ty, v: Val, w: Val) {
    Has(t, w) && CanEnc(t, w) && Frozen(v, w) && (!Mat(t) ==> w == v)
  }

  ghost predicate Excuse(e: Error, mat: bool) { e == IntegerOverflow || (e == CodecFailed && mat) }

  lemma {:induction false} MeansAppend(a: seq<Ground>, x: seq<byte>, b: seq<Ground>, y: seq<byte>)
    requires Means(a, x) && Means(b, y)
    ensures Means(a + b, x + y)
  {
    FlatAppend(a, b);
    TruthAppend(a, b);
  }

  lemma {:induction false} AtomMeans(data: seq<byte>)
    ensures Means([Atom(data)], data)
  {
    assert FlatAll([Atom(data)]) == data + [];
  }

  /** A leaf call followed by more. */
  lemma {:induction false} LeafThen(op: Op, rest: seq<Op>, clock: nat)
    requires op.Uvar? || op.Presence? || (op.Tag? && TagError(op.tag, op.wire) == None)
    ensures PlayAll([op] + rest, clock) ==
            match PlayAll(rest, clock)
            case Stuck(e) => Stuck(e)
            case Done(nodes, occs, c) => Done([Atom(Leaf(op))] + nodes, [] + occs, c)
  {
    assert ([op] + rest)[1..] == rest;
  }

  lemma {:induction false} OnePlay(op: Op, clock: nat)
    ensures PlayAll([op], clock) ==
            match Play(op, clock)
            case Stuck(e) => Stuck(e)
            case Done(nodes, occs, c) => Done(nodes, occs, c)
  {
    var p := Play(op, clock);
    assert [op][1..] == [];
    if p.Done? {
      assert p.nodes + [] == p.nodes && p.occs + [] == p.occs;
    }
  }

  /** A delimited body means its delimited bytes, measured by the writer or, with the right size, beforehand. */
  lemma {:induction false} WrapMeans(measured: bool, size: nat, inner: seq<Op>, clock: nat, body: seq<byte>)
    ensures match PlayAll(inner, clock)
            case Stuck(e) => PlayAll(Wrap(measured, size, inner), clock) == Stuck(e)
            case Done(nodes, _, _) =>
              && PlayAll(Wrap(measured, size, inner), clock).Done?
              && (Means(nodes, body) && (measured ==> size == |body|) ==>
                  Means(PlayAll(Wrap(measured, size, inner), clock).nodes, Delim(body)))
  {
    var op := Wrap(measured, size, inner)[0];
    OnePlay(op, clock);
    var p := PlayAll(inner, clock);
    if p.Done? {
      var g := if measured then Claim(size % TWO_64, p.nodes) else Box(p.nodes);
      assert Play(op, clock).nodes == [g];
      assert FlatAll([g]) == Flat(g) + [];
      assert AllTruthful([g]) == Truthful(g);
      assert |Delim(body)| > |body|;
    }
  }

  lemma {:induction false} IntMeans(x: IntTy, i: int, clock: nat)
    requires GoodInt(x) && InWidth(i, x.go, x.signed)
    ensures match PlayAll(EmitInt(x, i), clock)
            case Stuck(e) => e == IntegerOverflow && !InWidth(i, x.wire, x.signed)
            case Done(nodes, _, _) => InWidth(i, x.wire, x.signed) && Means(nodes, IntBytes(i, x.signed))
  {
    OnePlay(EmitInt(x, i)[0], clock);
    AtomMeans(IntBytes(i, x.signed));
  }

  lemma {:induction false} KeyMeans(kt: KeyTy, k: Key, clock: nat)
    requires KeyHas(kt, k) && (kt.KInt? ==> GoodInt(kt.num))
    ensures match PlayAll(EmitKey(kt, k), clock)
            case Stuck(e) => e == IntegerOverflow && !KeyFits(kt, k)
            case Done(nodes, _, _) => KeyFits(kt, k) && Means(nodes, EncKey(kt, k))
  {
    if kt.KInt? {
      IntMeans(kt.num, k.i, clock);
    } else {
      OnePlay(EmitKey(kt, k)[0], clock);
      AtomMeans(EncKey(kt, k));
    }
  }

  ghost predicate Sound(o: Outcome, t: Ty, v: Val, w: Val, bytes: seq<byte>) {
    match o
    case Done(nodes, _, _) => Means(nodes, bytes) && Took(t, v, w)
    case Stuck(e) => Excuse(e, Mat(t)) && !CanEmit(t, v)
  }

  /** The theorem, for a value at any clock. */
  lemma {:induction false} Emits(t: Ty, v: Val, clock: nat) returns (w: Val)
    requires GoodTy(t) && Has(t, v)
    ensures Sound(PlayAll(EmitVal(t, v), clock), t, v, w, Enc(t, w))
    decreases v, 1
  {
    match t
    case TInt(x) =>
      w := v;
      IntMeans(x, v.i, clock);
    case TSlice(_, _) => w := EmitsSlice(t, v, clock);
    case TMap(_, _) => w := EmitsMap(t, v, clock);
    case TOpt(target, elide) =>
      w := EmitsOpt(target, elide, v, clock);
      WrapMeans(false, 0, EmitOpt(target, elide, v), clock, Body(t, w));
      OptBytes(target, elide, w);
    case TStruct(fs) => w := EmitsStruct(t, v, clock);
    case _ => w := EmitsLeaf(t, v, clock);
  }

  lemma {:induction false} EmitsLeaf(t: Ty, v: Val, clock: nat) returns (w: Val)
    requires Has(t, v) && (t.TBool? || t.TFix? || t.TStr? || t.TCustom?)
    ensures Sound(PlayAll(EmitVal(t, v), clock), t, v, w, Enc(t, w))
  {
    hide Means, PlayAll;
    OnePlay(EmitVal(t, v)[0], clock);
    w := v;
    if v.VLive? {
      match v.gen(clock)
      case Some(s) =>
        w := VStr(s);
        AtomMeans(Delim(s));
      case None =>
    } else {
      AtomMeans(Enc(t, v));
    }
  }

  lemma {:induction false} OptBytes(target: Ty, elide: bool, w: Val)
    requires w.VNil? || w.VSome?
    ensures Enc(TOpt(target, elide), w) == Delim(Body(TOpt(target, elide), w))
  {
  }

  ghost predicate TookAll(t: Ty, es: seq<Val>, ws: seq<Val>) {
    |ws| == |es| && forall i :: 0 <= i < |es| ==> Took(t, es[i], ws[i])
  }

  lemma {:induction false} EmitsSlice(t: Ty, v: Val, clock: nat) returns (w: Val)
    requires t.TSlice? && GoodTy(t) && Has(t, v)
    ensures Sound(PlayAll(EmitVal(t, v), clock), t, v, w, Enc(t, w))
    decreases v, 0
  {
    hide EncElems, EmitElems, SizeElems, Mat, Means, PlayAll, Took, CanEmit, Has, CanEnc, TookAll;
    SliceParts(t, v);
    var elem, es := t.elem, v.elems;
    var ws := EmitsElems(elem, es, clock);
    var inner := [Uvar(|es|)] + EmitElems(elem, es);
    var body := Uvarint(|es|) + EncElems(elem, ws);
    LeafThen(Uvar(|es|), EmitElems(elem, es), clock);
    w := v;
    match PlayAll(EmitElems(elem, es), clock)
    case Done(nodes, _, _) =>
      w := VSlice(ws);
      AtomMeans(Uvarint(|es|));
      MeansAppend([Atom(Uvarint(|es|))], Uvarint(|es|), nodes, EncElems(elem, ws));
      SliceTook(t, v, ws);
      if !Mat(elem) {
        SizeElemsExact(elem, es);
        UvarintLength(|es|);
      }
      WrapMeans(!Mat(elem), VarintLen(|es|) + SizeElems(elem, es), inner, clock, body);
    case Stuck(_) =>
      WrapMeans(!Mat(elem), VarintLen(|es|) + SizeElems(elem, es), inner, clock, body);
  }

  lemma {:induction false} SliceParts(t: Ty, v: Val)
    requires t.TSlice? && GoodTy(t) && Has(t, v)
    ensures v.VSlice? && Mat(t) == Mat(t.elem) && |v.elems| < TWO_63
            && forall i :: 0 <= i < |v.elems| ==> Has(t.elem, v.elems[i])
    ensures (exists i :: 0 <= i < |v.elems| && !CanEmit(t.elem, v.elems[i])) ==> !CanEmit(t, v)
  {
  }

  lemma {:induction false} SliceTook(t: Ty, v: Val, ws: seq<Val>)
    requires t.TSlice? && v.VSlice? && Has(t, v) && TookAll(t.elem, v.elems, ws)
    ensures |ws| == |v.elems| && Took(t, v, VSlice(ws)) && (!Mat(t) ==> ws == v.elems)
            && forall i :: 0 <= i < |ws| ==> CanEnc(t.elem, ws[i])
  {
  }

  lemma {:induction false} EmitsElems(t: Ty, es: seq<Val>, clock: nat) returns (ws: seq<Val>)
    requires GoodTy(t) && forall i :: 0 <= i < |es| ==> Has(t, es[i])
    ensures match PlayAll(EmitElems(t, es), clock)
            case Done(nodes, _, _) => Means(nodes, EncElems(t, ws)) && TookAll(t, es, ws)
            case Stuck(e) => Excuse(e, Mat(t)) && exists i :: 0 <= i < |es| && !CanEmit(t, es[i])
    decreases es, 0
  {
    hide Enc, Has, CanEmit, EmitElem, Mat, GoodTy, Took, Means, Excuse;
    ws := [];
    if |es| == 0 {
      NothingMeans();
    } else {
      hide PlayAll;
      var w := EmitsElem(t, es[0], clock);
      var rest := EmitElems(t, es[1..]);
      PlayAppend(EmitElem(t, es[0]), rest, clock);
      var o := PlayAll(EmitElem(t, es[0]), clock);
      if o.Done? {
        var u := EmitsElems(t, es[1..], o.clock);
        ws := [w] + u;
        if PlayAll(rest, o.clock).Done? {
          assert ws[1..] == u;
          MeansAppend(o.nodes, Enc(t, w), PlayAll(rest, o.clock).nodes, EncElems(t, u));
        } else {
          var i :| 0 <= i < |es[1..]| && !CanEmit(t, es[1..][i]);
          assert es[1..][i] == es[i + 1];
        }
      }
    }
  }

  lemma {:induction false} NothingMeans()
    ensures Means([], [])
  {
  }

  lemma {:induction false} EmitsElem(t: Ty, v: Val, clock: nat) returns (w: Val)
    requires GoodTy(t) && Has(t, v)
    ensures Sound(PlayAll(EmitElem(t, v), clock), t, v, w, Enc(t, w))
    decreases v, 2
  {
    if t.TOpt? {
      w := EmitsOpt(t.target, t.elide, v, clock);
      if !Mat(t) && PlayAll(EmitOpt(t.target, t.elide, v), clock).Done? {
        OptSize(t.target, t.elide, v);
      }
      WrapMeans(!Mat(t), SizeOpt(t.target, t.elide, v), EmitOpt(t.target, t.elide, v), clock, Body(t, w));
      OptBytes(t.target, t.elide, w);
    } else {
      w := Emits(t, v, clock);
    }
  }

  lemma {:induction false} OptSize(target: Ty, elide: bool, v: Val)
    requires (v.VNil? || v.VSome?) && CanEnc(TOpt(target, elide), v)
    ensures SizeOpt(target, elide, v) == |Body(TOpt(target, elide), v)|
  {
    if v.VSome? && !(elide && IsZero(v.target)) {
      SizeInlineExact(target, v.target);
    }
  }

  lemma {:induction false} EmitsOpt(target: Ty, elide: bool, v: Val, clock: nat) returns (w: Val)
    requires GoodTy(TOpt(target, elide)) && Has(TOpt(target, elide), v)
    ensures (v.VNil? || v.VSome?) && (w.VNil? || w.VSome?)
    ensures Sound(PlayAll(EmitOpt(target, elide, v), clock), TOpt(target, elide), v, w, Body(TOpt(target, elide), w))
    decreases v, 0
  {
    w := v;
    if v.VNil? {
      OnePlay(Presence(Nil), clock);
      AtomMeans([PresenceByte(Nil)]);
    } else if elide && IsZero(v.target) {
      OnePlay(Presence(PresenceState.Zero), clock);
      AtomMeans([PresenceByte(PresenceState.Zero)]);
    } else {
      hide Sound;
      w := EmitsPresent(target, elide, v.target, clock);
    }
  }

  lemma {:induction false} EmitsPresent(target: Ty, elide: bool, v: Val, clock: nat) returns (w: Val)
    requires GoodTy(TOpt(target, elide)) && Has(target, v) && !(elide && IsZero(v))
    ensures w.VSome?
    ensures Sound(PlayAll(EmitOpt(target, elide, VSome(v)), clock), TOpt(target, elide), VSome(v), w,
            Body(TOpt(target, elide), w))
    decreases v, 3
  {
    hide EmitInline, Inline, Means, PlayAll, Has, CanEnc, Frozen, Took, CanEmit, Mat, IsZero;
    var x := EmitsInline(target, v, clock);
    var rest := EmitInline(target, v);
    LeafThen(Presence(NonZero), rest, clock);
    w := VSome(x);
    OptParts(target, elide, v);
    match PlayAll(rest, clock)
    case Done(nodes, _, _) =>
      OptTook(target, elide, v, x);
      AtomMeans([PresenceByte(NonZero)]);
      MeansAppend([Atom([PresenceByte(NonZero)])], [PresenceByte(NonZero)], nodes, Inline(target, x));
    case Stuck(_) =>
  }

  lemma {:induction false} OptParts(target: Ty, elide: bool, v: Val)
    ensures Mat(TOpt(target, elide)) == Mat(target) && CanEmit(TOpt(target, elide), VSome(v)) == CanEmit(target, v)
    ensures GoodTy(TOpt(target, elide)) ==> GoodTy(target)
  {
  }

  lemma {:induction false} OptTook(target: Ty, elide: bool, v: Val, x: Val)
    requires GoodTy(TOpt(target, elide)) && Took(target, v, x)
    ensures Took(TOpt(target, elide), VSome(v), VSome(x))
    ensures elide && IsZero(x) ==> IsZero(v)
  {
  }

  lemma {:induction false} EmitsInline(t: Ty, v: Val, clock: nat) returns (w: Val)
    requires GoodTy(t) && Has(t, v)
    ensures Sound(PlayAll(EmitInline(t, v), clock), t, v, w, Inline(t, w))
    decreases v, 2
  {
    if t.TStruct? {
      var ws := EmitsFields(t.fields, v.live, v.vals, clock);
      w := VStruct(v.live, ws);
      StructTook(t.fields, v.live, v.vals, ws, PlayAll(EmitInline(t, v), clock).Done?);
    } else {
      w := Emits(t, v, clock);
      InlinePlain(t, w);
    }
  }

  lemma {:induction false} InlinePlain(t: Ty, v: Val)
    requires !t.TStruct?
    ensures Inline(t, v) == Enc(t, v)
  {
  }

  lemma {:induction false} EmitsStruct(t: Ty, v: Val, clock: nat) returns (w: Val)
    requires t.TStruct? && GoodTy(t) && Has(t, v)
    ensures Sound(PlayAll(EmitVal(t, v), clock), t, v, w, Enc(t, w))
    decreases v, 0
  {
    var fs, live, vs := t.fields, v.live, v.vals;
    var ws := EmitsFields(fs, live, vs, clock);
    w := VStruct(live, ws);
    var o := PlayAll(EmitFields(fs, live, vs), clock);
    StructTook(fs, live, vs, ws, o.Done?);
    if !Mat(t) && o.Done? {
      SizeFieldsExact(fs, live, vs);
    }
    WrapMeans(!Mat(t), SizeFields(fs, live, vs), EmitFields(fs, live, vs), clock, EncFields(fs, live, ws));
  }

  ghost predicate FieldTook(f: Field, live: set<nat>, v: Val, w: Val) {
    && HasField(f, live, w) && Frozen(v, w) && (Written(f, live, w) <==> Written(f, live, v))
    && (Written(f, live, w) ==> CanEncField(f, w)) && (!MatField(f) ==> w == v)
  }

  ghost predicate FieldsTook(fs: seq<Field>, live: set<nat>, vs: seq<Val>, ws: seq<Val>) {
    |ws| == |vs| == |fs| && forall i :: 0 <= i < |fs| ==> FieldTook(fs[i], live, vs[i], ws[i])
  }

  ghost predicate FieldsStick(fs: seq<Field>, live: set<nat>, vs: seq<Val>)
    requires |vs| == |fs|
  {
    exists i :: 0 <= i < |fs| && Written(fs[i], live, vs[i]) && !CanEmitField(fs[i], vs[i])
  }

  lemma {:induction false} StructTook(fs: seq<Field>, live: set<nat>, vs: seq<Val>, ws: seq<Val>, done: bool)
    requires |vs| == |fs| && if done then FieldsTook(fs, live, vs, ws) else FieldsStick(fs, live, vs)
    ensures done ==> Took(TStruct(fs), VStruct(live, vs), VStruct(live, ws))
    ensures !done ==> !CanEmit(TStruct(fs), VStruct(live, vs))
  {
    if done && !MatFields(fs) {
      assert forall i :: 0 <= i < |fs| ==> !MatField(fs[i]);
      assert ws == vs;
    }
  }

  lemma {:induction false} EmitsFields(fs: seq<Field>, live: set<nat>, vs: seq<Val>, clock: nat) returns (ws: seq<Val>)
    requires |vs| == |fs| && forall i :: 0 <= i < |fs| ==> GoodField(fs[i]) && HasField(fs[i], live, vs[i])
    ensures match PlayAll(EmitFields(fs, live, vs), clock)
            case Done(nodes, _, _) => Means(nodes, EncFields(fs, live, ws)) && FieldsTook(fs, live, vs, ws)
            case Stuck(e) => Excuse(e, MatFields(fs)) && FieldsStick(fs, live, vs)
    decreases vs, 0
  {
    hide EncField, HasField, EmitField, CanEmitField, FieldTook, Means, Written, GoodField, MatField;
    ws := [];
    if |fs| == 0 {
      NothingMeans();
    } else {
      hide PlayAll;
      var gs, us := fs[1..], vs[1..];
      TailTook(fs, live, vs);
      var w := EmitsField(fs[0], live, vs[0], clock);
      var rest := EmitFields(gs, live, us);
      PlayAppend(EmitField(fs[0], live, vs[0]), rest, clock);
      var o := PlayAll(EmitField(fs[0], live, vs[0]), clock);
      if o.Done? {
        var xs := EmitsFields(gs, live, us, o.clock);
        ws := [w] + xs;
        if PlayAll(rest, o.clock).Done? {
          assert ws[1..] == xs;
          MeansAppend(o.nodes, EncField(fs[0], live, w), PlayAll(rest, o.clock).nodes, EncFields(gs, live, xs));
        }
      }
    }
  }

  lemma {:induction false} TailTook(fs: seq<Field>, live: set<nat>, vs: seq<Val>)
    requires |vs| == |fs| > 0
    ensures forall i :: 0 <= i < |fs[1..]| ==> fs[1..][i] == fs[i + 1] && vs[1..][i] == vs[i + 1]
    ensures FieldsStick(fs[1..], live, vs[1..]) ==> FieldsStick(fs, live, vs)
    ensures MatFields(fs[1..]) ==> MatFields(fs)
  {
    hide Written, CanEmitField, MatField;
    var gs, us := fs[1..], vs[1..];
    assert forall i :: 0 <= i < |gs| ==> gs[i] == fs[i + 1] && us[i] == vs[i + 1];
    if FieldsStick(gs, live, us) {
      var i :| 0 <= i < |gs| && Written(gs[i], live, us[i]) && !CanEmitField(gs[i], us[i]);
      assert Written(fs[i + 1], live, vs[i + 1]) && !CanEmitField(fs[i + 1], vs[i + 1]);
    }
    if MatFields(gs) {
      var j :| 0 <= j < |gs| && MatField(gs[j]);
      assert MatField(fs[j + 1]);
    }
  }

  lemma {:induction false} EmitsField(f: Field, live: set<nat>, v: Val, clock: nat) returns (w: Val)
    requires GoodField(f) && HasField(f, live, v)
    ensures match PlayAll(EmitField(f, live, v), clock)
            case Done(nodes, _, _) => Means(nodes, EncField(f, live, w)) && FieldTook(f, live, v, w)
            case Stuck(e) => Excuse(e, MatField(f)) && Written(f, live, v) && !CanEmitField(f, v)
    decreases v, 3
  {
    hide EmitField, EmitVal, Enc, EncField, PlayAll, Means, FieldTook, Took, CanEmit, CanEmitField, Mat, MatField,
      Excuse, Written, Has, HasField, GoodField, GoodTy, WireOf, Sent;
    w := v;
    if Written(f, live, v) {
      FieldSends(f, live, v);
      var x := Emits(f.ty, Sent(f, v), clock);
      var rest, key := EmitVal(f.ty, Sent(f, v)), Tag(f.tag, WireOf(f.ty));
      LeafThen(key, rest, clock);
      match PlayAll(rest, clock)
      case Done(nodes, _, _) =>
        w := if f.idRef then VSome(x) else x;
        PayloadTook(f, live, v, x);
        AtomMeans(FieldKey(f));
        MeansAppend([Atom(FieldKey(f))], FieldKey(f), nodes, Enc(f.ty, x));
      case Stuck(e) => PayloadStuck(f, live, v, e);
    } else {
      FieldSilent(f, live, v, clock);
    }
  }

  /** What a written field sends. */
  lemma {:induction false} FieldSends(f: Field, live: set<nat>, v: Val)
    requires GoodField(f) && HasField(f, live, v) && Written(f, live, v)
    ensures GoodTy(f.ty) && Has(f.ty, Sent(f, v)) && TagError(f.tag, WireOf(f.ty)) == None
    ensures EmitField(f, live, v) == [Tag(f.tag, WireOf(f.ty))] + EmitVal(f.ty, Sent(f, v))
    ensures Sent(f, v) == v || Sent(f, v) < v
  {
  }

  lemma {:induction false} FieldSilent(f: Field, live: set<nat>, v: Val, clock: nat)
    requires GoodField(f) && HasField(f, live, v) && !Written(f, live, v)
    ensures PlayAll(EmitField(f, live, v), clock).Done? && FieldTook(f, live, v, v)
    ensures Means(PlayAll(EmitField(f, live, v), clock).nodes, EncField(f, live, v))
  {
  }

  lemma {:induction false} PayloadStuck(f: Field, live: set<nat>, v: Val, e: Error)
    requires GoodField(f) && HasField(f, live, v) && Written(f, live, v)
    requires Excuse(e, Mat(f.ty)) && !CanEmit(f.ty, Sent(f, v))
    ensures Excuse(e, MatField(f)) && !CanEmitField(f, v)
  {
  }

  lemma {:induction false} PayloadTook(f: Field, live: set<nat>, v: Val, x: Val)
    requires GoodField(f) && HasField(f, live, v) && Written(f, live, v) && Took(f.ty, Sent(f, v), x)
    ensures var w := if f.idRef then VSome(x) else x;
            FieldTook(f, live, v, w) && EncField(f, live, w) == FieldKey(f) + Enc(f.ty, x)
  {
  }

  ghost predicate EntriesTook(vt: Ty, m: map<Key, Val>, n: map<Key, Val>, ks: seq<Key>) {
    && n.Keys == m.Keys
    && forall k :: k in m ==> if k in ks then Took(vt, m[k], n[k]) else n[k] == m[k]
  }

  lemma {:induction false} EntriesAgree(kt: KeyTy, vt: Ty, a: Val, b: Val, ks: seq<Key>)
    requires a.VMap? && b.VMap? && a.entries.Keys == b.entries.Keys
    requires forall k :: k in ks && k in a.entries ==> a.entries[k] == b.entries[k]
    ensures EncEntries(kt, vt, a, ks) == EncEntries(kt, vt, b, ks)
    decreases |ks|
  {
    hide Enc;
    if |ks| > 0 {
      EntriesAgree(kt, vt, a, b, ks[1..]);
    }
  }

  lemma {:induction false} EmitsMap(t: Ty, v: Val, clock: nat) returns (w: Val)
    requires t.TMap? && GoodTy(t) && Has(t, v)
    ensures Sound(PlayAll(EmitVal(t, v), clock), t, v, w, Enc(t, w))
    decreases v, 0, |v.entries| + 1
  {
    hide EncEntries, EmitEntries, SizeEntries, Mat, Means, PlayAll, Sorted, Took, CanEmit, Has, EntriesTook, CanEnc,
        KeyFits, Enc;
    MapParts(t, v);
    var m, ks, n := v.entries, Keys(v.entries), |v.entries|;
    SortedLists(m.Keys);
    var rest := EmitEntries(t.key, t.val, v, ks);
    var size := VarintLen(n) + SizeEntries(t.key, t.val, v, ks);
    w := EmitsEntries(t.key, t.val, v, ks, clock);
    LeafThen(Uvar(n), rest, clock);
    match PlayAll(rest, clock)
    case Done(nodes, _, _) =>
      AtomMeans(Uvarint(n));
      MeansAppend([Atom(Uvarint(n))], Uvarint(n), nodes, EncEntries(t.key, t.val, w, ks));
      MapTook(t, v, w.entries, ks);
      MapBytes(t, v, w, ks);
      if !Mat(t.val) {
        FrozenFits(t, v);
        SizeEntriesExact(t.key, t.val, v, ks);
        UvarintLength(n);
      }
      WrapMeans(!Mat(t.val), size, [Uvar(n)] + rest, clock, Uvarint(n) + EncEntries(t.key, t.val, w, ks));
    case Stuck(_) =>
      WrapMeans(!Mat(t.val), size, [Uvar(n)] + rest, clock, []);
  }

  lemma {:induction false} FrozenFits(t: Ty, v: Val)
    requires t.TMap? && v.VMap? && Took(t, v, v)
    ensures forall k :: k in v.entries ==> CanEnc(t.val, v.entries[k])
  {
  }

  lemma {:induction false} MapParts(t: Ty, v: Val)
    requires t.TMap? && GoodTy(t) && Has(t, v)
    ensures v.VMap? && Mat(t) == Mat(t.val) && |v.entries| < TWO_63
            && forall k :: k in v.entries ==> KeyHas(t.key, k) && Has(t.val, v.entries[k])
    ensures (exists k :: k in v.entries && !(KeyFits(t.key, k) && CanEmit(t.val, v.entries[k]))) ==> !CanEmit(t, v)
  {
  }

  lemma {:induction false} MapTook(t: Ty, v: Val, n: map<Key, Val>, ks: seq<Key>)
    requires t.TMap? && v.VMap? && Has(t, v) && Lists(ks, v.entries.Keys)
    requires EntriesTook(t.val, v.entries, n, ks) && forall k :: k in v.entries ==> KeyFits(t.key, k)
    ensures n.Keys == v.entries.Keys && Took(t, v, VMap(n)) && (!Mat(t) ==> n == v.entries)
  {
    hide Has, CanEnc, Frozen, Mat;
    MatMap(t);
    assert forall k :: k in n ==> k in ks && Took(t.val, v.entries[k], n[k]);
    MapHas(t, v, n);
    MapCanEnc(t, v, n);
    MapFrozen(v, n);
    if !Mat(t) {
      assert n == v.entries;
    }
  }

  lemma {:induction false} MapHas(t: Ty, v: Val, n: map<Key, Val>)
    requires t.TMap? && Has(t, v) && n.Keys == v.entries.Keys && forall k :: k in n ==> Has(t.val, n[k])
    ensures Has(t, VMap(n))
  {
    assert |n| == |n.Keys| && |v.entries| == |v.entries.Keys|;
  }

  lemma {:induction false} MapCanEnc(t: Ty, v: Val, n: map<Key, Val>)
    requires t.TMap? && v.VMap? && n.Keys == v.entries.Keys
             && forall k :: k in n ==> KeyFits(t.key, k) && CanEnc(t.val, n[k])
    ensures CanEnc(t, VMap(n))
  {
  }

  lemma {:induction false} MapFrozen(v: Val, n: map<Key, Val>)
    requires v.VMap? && n.Keys == v.entries.Keys && forall k :: k in n ==> Frozen(v.entries[k], n[k])
    ensures Frozen(v, VMap(n))
  {
  }

  lemma {:induction false} MapBytes(t: Ty, v: Val, w: Val, ks: seq<Key>)
    requires t.TMap? && v.VMap? && w.VMap? && w.entries.Keys == v.entries.Keys && ks == Sorted(v.entries.Keys)
    ensures Enc(t, w) == Delim(Uvarint(|v.entries|) + EncEntries(t.key, t.val, w, ks))
  {
    hide EncEntries, Sorted;
    assert |w.entries| == |w.entries.Keys| && |v.entries| == |v.entries.Keys|;
  }

  lemma {:induction false} MatMap(t: Ty)
    requires t.TMap?
    ensures Mat(t) == Mat(t.val)
  {
  }

  lemma {:induction false} EntriesCons(vt: Ty, m: map<Key, Val>, y: map<Key, Val>, k: Key, u: seq<Key>, x: Val)
    requires EntriesTook(vt, m, y, u) && k in m && Took(vt, m[k], x)
    ensures EntriesTook(vt, m, y[k := x], [k] + u)
  {
    hide Took;
    assert forall a :: a in [k] + u <==> a == k || a in u;
  }

  /** What the entry loop means, w being what it took the map to be. */
  ghost predicate EntriesSound(o: Outcome, kt: KeyTy, vt: Ty, v: Val, w: Val, ks: seq<Key>)
    requires v.VMap? && forall k :: k in ks ==> k in v.entries
  {
    match o
    case Done(nodes, _, _) =>
      && w.VMap? && EntriesTook(vt, v.entries, w.entries, ks) && Means(nodes, EncEntries(kt, vt, w, ks))
      && forall k :: k in ks ==> KeyFits(kt, k)
    case Stuck(e) => Excuse(e, Mat(vt)) && exists k :: k in ks && !(KeyFits(kt, k) && CanEmit(vt, v.entries[k]))
  }

  lemma {:induction false} EmitsEntries(kt: KeyTy, vt: Ty, v: Val, ks: seq<Key>, clock: nat) returns (w: Val)
    requires v.VMap? && GoodTy(vt) && (kt.KInt? ==> GoodInt(kt.num)) && Ascending(ks)
    requires forall k :: k in ks ==> k in v.entries && KeyHas(kt, k) && Has(vt, v.entries[k])
    ensures EntriesSound(PlayAll(EmitEntries(kt, vt, v, ks), clock), kt, vt, v, w, ks)
    decreases v, 0, |ks|
  {
    hide Enc, EncKey, Has, CanEmit, EmitVal, EmitKey, Mat, GoodTy, Took, Means, KeyHas, KeyFits, EntriesSound, PlayAll,
        EncEntries;
    w := v;
    if |ks| == 0 {
      NoEntries(kt, vt, v, ks, clock);
    } else {
      var k, u := ks[0], ks[1..];
      assert k in ks && forall x :: x in u ==> x in ks;
      var a, b, c := EmitKey(kt, k), EmitVal(vt, v.entries[k]), EmitEntries(kt, vt, v, u);
      assert EmitEntries(kt, vt, v, ks) == a + (b + c) by {
        AppendAssoc(a, b, c);
      }
      KeyMeans(kt, k, clock);
      PlayAppend(a, b + c, clock);
      match PlayAll(a, clock)
      case Stuck(e) => EntryStuck(kt, vt, v, ks, k, e);
      case Done(p, _, c1) =>
        var x := Emits(vt, v.entries[k], c1);
        PlayAppend(b, c, c1);
        match PlayAll(b, c1)
        case Stuck(e) => EntryStuck(kt, vt, v, ks, k, e);
        case Done(q, _, c2) =>
          var y := EmitsEntries(kt, vt, v, u, c2);
          match PlayAll(c, c2)
          case Stuck(e) => LaterStuck(kt, vt, v, ks, y, e);
          case Done(r, _, _) => w := EntryDone(kt, vt, v, ks, x, y, p, q, PlayAll(c, c2), PlayAll(a + (b + c), clock));
    }
  }

  lemma {:induction false} NoEntries(kt: KeyTy, vt: Ty, v: Val, ks: seq<Key>, clock: nat)
    requires v.VMap? && |ks| == 0
    ensures EntriesSound(PlayAll(EmitEntries(kt, vt, v, ks), clock), kt, vt, v, v, ks)
  {
    NothingMeans();
  }

  lemma {:induction false} EntryStuck(kt: KeyTy, vt: Ty, v: Val, ks: seq<Key>, k: Key, e: Error)
    requires v.VMap? && k in ks && forall k :: k in ks ==> k in v.entries
    requires Excuse(e, Mat(vt)) && !(KeyFits(kt, k) && CanEmit(vt, v.entries[k]))
    ensures forall w :: EntriesSound(Stuck(e), kt, vt, v, w, ks)
  {
  }

  lemma {:induction false} LaterStuck(kt: KeyTy, vt: Ty, v: Val, ks: seq<Key>, y: Val, e: Error)
    requires v.VMap? && |ks| > 0 && (forall k :: k in ks ==> k in v.entries)
             && EntriesSound(Stuck(e), kt, vt, v, y, ks[1..])
    ensures forall w :: EntriesSound(Stuck(e), kt, vt, v, w, ks)
  {
    hide KeyFits, CanEmit, Mat;
  }

  lemma {:induction false} EntryDone(kt: KeyTy, vt: Ty, v: Val, ks: seq<Key>, x: Val, y: Val, p: seq<Ground>,
                                     q: seq<Ground>,
                                     o: Outcome, whole: Outcome) returns (w: Val)
    requires v.VMap? && |ks| > 0 && (forall k :: k in ks ==> k in v.entries) && Ascending(ks)
    requires o.Done? && EntriesSound(o, kt, vt, v, y, ks[1..]) && KeyFits(kt, ks[0]) && Took(vt, v.entries[ks[0]], x)
    requires Means(p, EncKey(kt, ks[0])) && Means(q, Enc(vt, x))
    requires whole.Done? && whole.nodes == p + (q + o.nodes)
    ensures EntriesSound(whole, kt, vt, v, w, ks)
  {
    hide KeyFits, Took, Means, EncKey, Enc, EncEntries, EntriesTook;
    w := VMap(y.entries[ks[0] := x]);
    assert ks == [ks[0]] + ks[1..];
    EntriesKeys(vt, v.entries, y.entries, ks[1..]);
    EntriesCons(vt, v.entries, y.entries, ks[0], ks[1..], x);
    FirstDiffers(ks);
    EntryMeans(kt, vt, y, ks, x, p, q, o.nodes);
  }

  lemma {:induction false} EntriesKeys(vt: Ty, m: map<Key, Val>, n: map<Key, Val>, ks: seq<Key>)
    requires EntriesTook(vt, m, n, ks)
    ensures n.Keys == m.Keys
  {
  }

  lemma {:induction false} EntryMeans(kt: KeyTy, vt: Ty, y: Val, ks: seq<Key>, x: Val, a: seq<Ground>, b: seq<Ground>,
                                      c: seq<Ground>)
    requires y.VMap? && |ks| > 0 && ks[0] in y.entries && ks[0] !in ks[1..]
    requires Means(a, EncKey(kt, ks[0])) && Means(b, Enc(vt, x)) && Means(c, EncEntries(kt, vt, y, ks[1..]))
    ensures Means(a + (b + c), EncEntries(kt, vt, VMap(y.entries[ks[0] := x]), ks))
  {
    hide Means, Enc;
    var w := VMap(y.entries[ks[0] := x]);
    EntriesAgree(kt, vt, w, y, ks[1..]);
    var p, q, r := EncKey(kt, ks[0]), Enc(vt, x), EncEntries(kt, vt, w, ks[1..]);
    MeansAppend(b, q, c, r);
    MeansAppend(a, p, b + c, q + r);
    assert p + (q + r) == p + q + r;
  }

  lemma {:induction false} FirstDiffers(ks: seq<Key>)
    requires |ks| > 0 && Ascending(ks)
    ensures ks[0] !in ks[1..]
  {
    forall i | 1 <= i < |ks| ensures ks[i] != ks[0] {
      KeyTotal(ks[0], ks[i]);
    }
  }
}
