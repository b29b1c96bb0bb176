/** What a declaration stands for, said without the codec types: the Go values of a field, which of them fit the wire,
    the wire type under which they travel, and when an optional is elided. */
module GoValues {
  import opened Basics
  import opened Ops
  import opened Wire
  import opened Schema
  import opened Generated
  import opened RoundTrip
  import opened Snapshot

  /** int8 to int64 and uint8 to uint64. */
  predicate Holds(bits: nat, signed: bool, i: int) {
    match bits
    case 8 => if signed then -0x80 <= i < 0x80 else 0 <= i < 0x100
    case 16 => if signed then -0x8000 <= i < 0x8000 else 0 <= i < 0x1_0000
    case 32 => if signed then -0x8000_0000 <= i < 0x8000_0000 else 0 <= i < 0x1_0000_0000
    case _ => if signed then -0x8000_0000_0000_0000 <= i < 0x8000_0000_0000_0000 else 0 <= i < 0x1_0000_0000_0000_0000
  }

  /** A value of a basic kind. */
  predicate GoBasic(p: Prim, v: Val) {
    match p
    case PBool => v.VBool?
    case PInt(bits, signed, _, _) => v.VInt? && Holds(bits, signed, v.i)
    case PString => GoText(v)
    case PFloat(bytes) => v.VBits? && v.bits < if bytes == 4 then 0x1_0000_0000 else 0x1_0000_0000_0000_0000
  }

  predicate GoText(v: Val) { v.VStr? && |v.s| < TWO_63 }

  predicate GoKey(s: Shape, k: Key) {
    match s
    case Named(_, u) => GoKey(u, k)
    case Basic(PBool) => k.BoolKey?
    case Basic(PInt(bits, signed, _, _)) => k.IntKey? && Holds(bits, signed, k.i)
    case Basic(PString) => k.StrKey? && |k.s| < TWO_63
    case _ => false
  }

  predicate Uint8(s: Shape) { s.Basic? && s.prim.PInt? && s.prim.bits == 8 && !s.prim.signed }

  /** A Go value of a shape, n structs deep. */
  ghost predicate GoValue(env: map<string, StructDecl>, build: Build, s: Shape, v: Val, n: nat)
    decreases n, 0, s
  {
    match s
    case Basic(p) => GoBasic(p, v)
    case Named(_, u) => GoValue(env, build, u, v, n)
    case StructRef(k) =>
      && v.VStruct?
      && var fs := if n > 0 && k in env then env[k].fields else [];
         |v.vals| == |fs|
         && forall i :: 0 <= i < |fs| ==> n > 0 && GoField(env, build, fs[i], v.live, v.vals[i], n - 1)
    case SliceOf(e) =>
      if Uint8(e) then GoText(v)
      else v.VSlice? && |v.elems| < TWO_63 && forall i :: 0 <= i < |v.elems| ==> GoValue(env, build, e, v.elems[i], n)
    case MapOf(k, e) =>
      && v.VMap? && |v.entries| < TWO_63
      && forall x :: x in v.entries ==> GoKey(k, x) && GoValue(env, build, e, v.entries[x], n)
    case PtrTo(e) => v.VNil? || (v.VSome? && GoValue(env, build, e, v.target, n))
    case IdOf(_, id) => GoValue(env, build, id, v, n)
  }

  /** What a custom codec produces: bytes, or a value asked for anew at every call when it materialises. */
  predicate GoPayload(build: Build, name: string, v: Val) {
    GoText(v) || (v.VLive? && build.codec(name) == Materializing)
  }

  /** A value of a field, behind a pointer when it is optional or an id_ref; out of reach of its embedded pointers it is
      zero. */
  ghost predicate GoField(env: map<string, StructDecl>, build: Build, f: FieldDecl, live: set<nat>, v: Val, n: nat)
    decreases n, 2
  {
    && (if f.cycleBreak || f.optional
        then v.VNil? || (v.VSome? && GoPlain(env, build, f, v.target, n)) else GoPlain(env, build, f, v, n))
    && (f.hops <= live || v == GoZeroField(env, f, n))
  }

  ghost predicate GoPlain(env: map<string, StructDecl>, build: Build, f: FieldDecl, v: Val, n: nat)
    decreases n, 1
  {
    if f.custom != "" then GoPayload(build, f.custom, v) else GoValue(env, build, f.shape, v, n)
  }

  /** The zero value. */
  function GoZero(env: map<string, StructDecl>, s: Shape, n: nat): Val
    decreases n, 0, s
  {
    match s
    case Basic(PBool) => VBool(false)
    case Basic(PInt(_, _, _, _)) => VInt(0)
    case Basic(PString) => VStr([])
    case Basic(PFloat(_)) => VBits(0)
    case Named(_, u) => GoZero(env, u, n)
    case StructRef(k) => VStruct({}, if n > 0 && k in env then GoZeros(env, env[k].fields, n - 1) else [])
    case SliceOf(e) => if Uint8(e) then VStr([]) else VSlice([])
    case MapOf(_, _) => VMap(map[])
    case PtrTo(_) => VNil
    case IdOf(_, id) => GoZero(env, id, n)
  }

  function GoZeroField(env: map<string, StructDecl>, f: FieldDecl, n: nat): Val
    decreases n, 1
  {
    if f.cycleBreak || f.optional then VNil
    else if f.custom != "" then VStr([])
    else GoZero(env, f.shape, n)
  }

  function GoZeros(env: map<string, StructDecl>, fs: seq<FieldDecl>, n: nat): (vs: seq<Val>)
    ensures |vs| == |fs| && forall i :: 0 <= i < |fs| ==> vs[i] == GoZeroField(env, fs[i], n)
    decreases n, 3, fs
  {
    if |fs| == 0 then [] else [GoZeroField(env, fs[0], n)] + GoZeros(env, fs[1..], n)
  }

  /** A shape resolves to a type with its zero value. */
  lemma {:induction false} ZeroExactly(env: map<string, StructDecl>, build: Build, s: Shape, n: nat)
    requires GoodSnap(env) && GoodShape(s)
    ensures Schema.Zero(Resolve(env, build, s, n)) == GoZero(env, s, n)
    decreases n, 0, s
  {
    hide GoodSnap, ResolveFields, GoZeros, KeyOf;
    match s
    case Named(_, u) => ZeroExactly(env, build, u, n);
    case IdOf(_, id) => ZeroExactly(env, build, id, n);
    case StructRef(k) =>
      if n > 0 && k in env {
        ZerosExactly(env, build, k, n - 1);
      }
    case _ =>
  }

  lemma {:induction false} ZerosExactly(env: map<string, StructDecl>, build: Build, k: string, n: nat)
    requires GoodSnap(env) && k in env
    ensures ZeroFields(ResolveFields(env, build, env[k].fields, n)) == GoZeros(env, env[k].fields, n)
    decreases n, 3
  {
    hide ResolveField, GoZeroField, ZeroField, GoodDecl;
    var fs := env[k].fields;
    forall i | 0 <= i < |fs| ensures ZeroField(ResolveField(env, build, fs[i], n)) == GoZeroField(env, fs[i], n) {
      ZeroFieldExactly(env, build, fs[i], n);
    }
  }

  lemma {:induction false} ZeroFieldExactly(env: map<string, StructDecl>, build: Build, f: FieldDecl, n: nat)
    requires GoodSnap(env) && GoodDecl(f)
    ensures ZeroField(ResolveField(env, build, f, n)) == GoZeroField(env, f, n)
    decreases n, 1
  {
    if !f.cycleBreak && !f.optional && f.custom == "" {
      ZeroExactly(env, build, f.shape, n);
      PlainType(env, build, f, n);
    }
  }

  /** An override changes the width on the wire only. */
  lemma {:induction false} PlainType(env: map<string, StructDecl>, build: Build, f: FieldDecl, n: nat)
    requires GoodDecl(f) && !f.cycleBreak && !f.optional && f.custom == ""
    ensures var t := Resolve(env, build, f.shape, n);
            if f.override_.None? then FieldTy(env, build, f, n) == t
            else t.TInt? && FieldTy(env, build, f, n) == TInt(t.num.(wire := f.override_.value.bits))
  {
    ResolveStrip(env, build, f.shape, n);
  }

  lemma {:induction false} HoldsInWidth(bits: nat, signed: bool, i: int)
    requires Width(bits)
    ensures InWidth(i, bits, signed) <==> Holds(bits, signed, i)
  {
  }

  lemma {:induction false} BasicExactly(p: Prim, o: Option<Override>, v: Val)
    requires GoodPrim(p)
    ensures Has(PrimTy(p, o), v) <==> GoBasic(p, v)
  {
    if p.PInt? && v.VInt? {
      HoldsInWidth(p.bits, p.signed, v.i);
    }
    assert Pow256(4) == 0x1_0000_0000 && Pow256(8) == 0x1_0000_0000_0000_0000 by {
      assert Pow256(2) == 0x1_0000 && Pow256(3) == 0x100_0000;
      assert Pow256(5) == 0x100_0000_0000 && Pow256(6) == 0x1_0000_0000_0000;
    }
  }

  lemma {:induction false} KeyExactly(s: Shape, k: Key)
    requires GoodShape(s) && Strip(s).Basic? && !Strip(s).prim.PFloat?
    ensures KeyHas(KeyOf(s), k) <==> GoKey(s, k)
  {
    match s
    case Named(_, u) => KeyExactly(u, k);
    case Basic(p) =>
      if p.PInt? && k.IntKey? {
        HoldsInWidth(p.bits, p.signed, k.i);
      }
    case _ =>
  }

  /** The values of the resolved type are the Go values of the shape. */
  lemma {:induction false} ValuesExactly(env: map<string, StructDecl>, build: Build, s: Shape, v: Val, n: nat)
    requires GoodSnap(env) && GoodShape(s)
    ensures Has(Resolve(env, build, s, n), v) <==> GoValue(env, build, s, v, n)
    decreases n, 0, s, 0
  {
    hide GoodSnap, ResolveFields, GoField, GoBasic, PrimTy, KeyHas, GoKey, KeyOf;
    match s
    case Basic(p) =>
      BasicExactly(p, None, v);
      assert Resolve(env, build, s, n) == PrimTy(p, None);
    case Named(_, u) => ValuesExactly(env, build, u, v, n);
    case IdOf(_, id) => ValuesExactly(env, build, id, v, n);
    case StructRef(k) =>
      if n > 0 && k in env && v.VStruct? {
        StructExactly(env, build, k, v, n - 1);
      }
    case SliceOf(e) => SliceExactly(env, build, e, v, n);
    case MapOf(k, e) => MapExactly(env, build, k, e, v, n);
    case PtrTo(e) =>
      if v.VSome? {
        ValuesExactly(env, build, e, v.target, n);
      }
  }

  lemma {:induction false} SliceExactly(env: map<string, StructDecl>, build: Build, e: Shape, v: Val, n: nat)
    requires GoodSnap(env) && GoodShape(e)
    ensures Has(Resolve(env, build, SliceOf(e), n), v) <==> GoValue(env, build, SliceOf(e), v, n)
    decreases n, 0, e, 1
  {
    var t := Resolve(env, build, e, n);
    assert IsByte(e) <==> Uint8(e);
    if !Uint8(e) && v.VSlice? {
      forall i | 0 <= i < |v.elems| ensures Has(t, v.elems[i]) <==> GoValue(env, build, e, v.elems[i], n) {
        ValuesExactly(env, build, e, v.elems[i], n);
      }
    }
    hide GoodSnap, IsByte;
  }

  lemma {:induction false} MapExactly(env: map<string, StructDecl>, build: Build, k: Shape, e: Shape, v: Val, n: nat)
    requires GoodSnap(env) && GoodShape(MapOf(k, e))
    ensures Has(Resolve(env, build, MapOf(k, e), n), v) <==> GoValue(env, build, MapOf(k, e), v, n)
    decreases n, 0, e, 1
  {
    hide GoodSnap, KeyHas, KeyOf, GoKey;
    var t := Resolve(env, build, e, n);
    if v.VMap? {
      forall x | x in v.entries
        ensures KeyHas(KeyOf(k), x) <==> GoKey(k, x)
        ensures Has(t, v.entries[x]) <==> GoValue(env, build, e, v.entries[x], n)
      {
        KeyExactly(k, x);
        ValuesExactly(env, build, e, v.entries[x], n);
      }
    }
  }

  lemma {:induction false} StructExactly(env: map<string, StructDecl>, build: Build, k: string, v: Val, n: nat)
    requires GoodSnap(env) && k in env && v.VStruct?
    ensures var fs := env[k].fields;
            Has(TStruct(ResolveFields(env, build, fs, n)), v) <==>
            |v.vals| == |fs| && forall i :: 0 <= i < |fs| ==> GoField(env, build, fs[i], v.live, v.vals[i], n)
    decreases n, 3
  {
    hide GoField, HasField, ResolveField, GoodDecl;
    var fs := env[k].fields;
    if |v.vals| == |fs| {
      forall i | 0 <= i < |fs|
        ensures HasField(ResolveField(env, build, fs[i], n), v.live, v.vals[i]) <==>
                GoField(env, build, fs[i], v.live, v.vals[i], n)
      {
        FieldExactly(env, build, fs[i], v.live, v.vals[i], n);
      }
    }
  }

  /** And so field by field. */
  lemma {:induction false} FieldExactly(env: map<string, StructDecl>, build: Build, f: FieldDecl, live: set<nat>,
                                        v: Val, n: nat)
    requires GoodSnap(env) && GoodDecl(f)
    ensures HasField(ResolveField(env, build, f, n), live, v) <==> GoField(env, build, f, live, v, n)
    decreases n, 2
  {
    hide GoodSnap, Resolve, GoValue, GoZeroField, ZeroField, GoodShape, PrimTy, ScalarTy;
    ZeroFieldExactly(env, build, f, n);
    if f.cycleBreak {
      if v.VSome? {
        IdExactly(env, build, f, v.target, n);
      }
    } else if f.optional {
      OptionalExactly(env, build, f, v, n);
    } else if f.custom == "" {
      ValuesExactly(env, build, f.shape, v, n);
      PlainExactly(env, build, f, v, n);
    }
  }

  lemma {:induction false} OptionalExactly(env: map<string, StructDecl>, build: Build, f: FieldDecl, v: Val, n: nat)
    requires GoodSnap(env) && GoodDecl(f) && !f.cycleBreak && f.optional
    ensures Has(FieldTy(env, build, f, n), v) <==> v.VNil? || (v.VSome? && GoPlain(env, build, f, v.target, n))
    decreases n, 1
  {
    var t := FieldTy(env, build, f, n);
    assert t.TOpt? && t.target == if f.custom != "" then TCustom(build.codec(f.custom), f.tag)
                                  else Resolve(env, build, f.shape, n);
    if v.VSome? && f.custom == "" {
      ValuesExactly(env, build, f.shape, v.target, n);
    }
    hide FieldTy, Resolve, GoValue;
  }

  /** A plain field with an override still holds what its Go type holds. */
  lemma {:induction false} PlainExactly(env: map<string, StructDecl>, build: Build, f: FieldDecl, v: Val, n: nat)
    requires GoodDecl(f) && !f.cycleBreak && !f.optional && f.custom == ""
    ensures Has(FieldTy(env, build, f, n), v) <==> Has(Resolve(env, build, f.shape, n), v)
  {
    PlainType(env, build, f, n);
    hide Resolve, FieldTy;
  }

  lemma {:induction false} ScalarResolves(env: map<string, StructDecl>, build: Build, s: Shape, n: nat)
    requires Strip(s).Basic?
    ensures Resolve(env, build, s, n) == PrimTy(Strip(s).prim, None)
  {
    hide PrimTy;
    ResolveStrip(env, build, s, n);
  }

  lemma {:induction false} IdType(env: map<string, StructDecl>, build: Build, f: FieldDecl, n: nat)
    requires GoodDecl(f) && f.cycleBreak
    ensures Strip(f.shape.id).Basic? && GoodPrim(Strip(f.shape.id).prim) && GoodShape(f.shape.id)
    ensures FieldTy(env, build, f, n) == PrimTy(Strip(f.shape.id).prim, f.override_)
  {
    hide PrimTy;
    StripGood(f.shape.id);
  }

  /** The identifier of an id_ref. */
  lemma {:induction false} IdExactly(env: map<string, StructDecl>, build: Build, f: FieldDecl, v: Val, n: nat)
    requires GoodSnap(env) && GoodDecl(f) && f.cycleBreak
    ensures Has(FieldTy(env, build, f, n), v) <==> GoPlain(env, build, f, v, n)
    decreases n, 1
  {
    IdType(env, build, f, n);
    var id := f.shape.id;
    assert GoPlain(env, build, f, v, n) == GoValue(env, build, id, v, n);
    hide PrimTy, Resolve, GoValue, GoBasic, Has, FieldTy, GoPlain;
    ScalarResolves(env, build, id, n);
    ValuesExactly(env, build, id, v, n);
    BasicExactly(Strip(id).prim, None, v);
    BasicExactly(Strip(id).prim, f.override_, v);
  }

  /** The bits an integer field promises on the wire: those of its override; else 32 for int, uint and uintptr, and the
      kind's own for every other kind. */
  function Promised(p: Prim, o: Option<Override>): nat
    requires p.PInt?
  {
    if o.Some? then o.value.bits else if p.platform then 32 else p.bits
  }

  predicate BasicFits(p: Prim, o: Option<Override>, v: Val) {
    p.PInt? && v.VInt? ==> Holds(Promised(p, o), p.signed, v.i)
  }

  predicate KeyPromised(s: Shape, k: Key) {
    match s
    case Named(_, u) => KeyPromised(u, k)
    case Basic(p) => p.PInt? && k.IntKey? ==> Holds(Promised(p, None), p.signed, k.i)
    case _ => true
  }

  /** The marshal code can write a value of a shape: every integer fits what it promises, every codec has answered. Only
      fields that are written matter. */
  ghost predicate Fits(env: map<string, StructDecl>, s: Shape, o: Option<Override>, v: Val, n: nat)
    decreases n, 0, s
  {
    match s
    case Basic(p) => BasicFits(p, o, v)
    case Named(_, u) => Fits(env, u, o, v, n)
    case IdOf(_, id) => Fits(env, id, o, v, n)
    case StructRef(k) =>
      n > 0 && k in env && v.VStruct? && |v.vals| == |env[k].fields| ==>
        forall i :: 0 <= i < |env[k].fields| && Travels(env[k].fields[i], v.live, v.vals[i]) ==>
          FieldFits(env, env[k].fields[i], v.vals[i], n - 1)
    case SliceOf(e) => v.VSlice? ==> forall i :: 0 <= i < |v.elems| ==> Fits(env, e, None, v.elems[i], n)
    case MapOf(k, e) =>
      v.VMap? ==> forall x :: x in v.entries ==> KeyPromised(k, x) && Fits(env, e, None, v.entries[x], n)
    case PtrTo(e) => v.VSome? ==> Fits(env, e, None, v.target, n)
  }

  /** The field's tag is on the wire: it is not plainly deprecated, within reach of its embedded pointers, and no nil
      id_ref. */
  predicate Travels(f: FieldDecl, live: set<nat>, v: Val) {
    !(f.deprecated && !f.compatWrite) && f.hops <= live && !(f.cycleBreak && v.VNil?)
  }

  ghost predicate FieldFits(env: map<string, StructDecl>, f: FieldDecl, v: Val, n: nat)
    decreases n, 1
  {
    var x := if (f.cycleBreak || f.optional) && v.VSome? then v.target else v;
    if f.custom != "" then !x.VLive? else (f.optional && v.VNil?) || Fits(env, f.shape, f.override_, x, n)
  }

  /** Which tags of a struct travel. */
  lemma {:induction false} TravelsExactly(env: map<string, StructDecl>, build: Build, f: FieldDecl, live: set<nat>,
                                          v: Val, n: nat)
    ensures Written(ResolveField(env, build, f, n), live, v) <==> Travels(f, live, v)
  {
  }

  /** The wire type in the key of a field: optionals and codecs are length-delimited, every other field has the wire
      type its declaration records (0 varint, 1 fixed64, 2 length-delim, 3 fixed32). */
  lemma {:induction false} WireExactly(env: map<string, StructDecl>, build: Build, f: FieldDecl, n: nat)
    requires GoodDecl(f)
    ensures f.wire in {"", "varint", "fixed64", "length-delim", "fixed32"}
    ensures WireOf(FieldTy(env, build, f, n)) ==
            if f.custom != "" || (f.optional && !f.cycleBreak) then 2
            else if f.wire == "varint" then 0 else if f.wire == "fixed64" then 1
            else if f.wire == "fixed32" then 3 else 2
  {
    WireLabels(f.shape);
    if f.cycleBreak {
      IdType(env, build, f, n);
      WireStrip(f.shape.id);
    } else if f.custom == "" && !f.optional {
      PlainType(env, build, f, n);
      ResolveWire(env, build, f.shape, n);
    }
  }

  lemma {:induction false} WireLabels(s: Shape)
    ensures WireFor(s) in {"varint", "fixed64", "length-delim", "fixed32"}
  {
    match s
    case Named(_, u) => WireLabels(u);
    case PtrTo(e) => WireLabels(e);
    case IdOf(_, id) => WireLabels(id);
    case _ =>
  }

  lemma {:induction false} WireStrip(s: Shape)
    ensures WireFor(s) == WireFor(Strip(s))
  {
    if s.Named? {
      WireStrip(s.under);
    }
  }

  lemma {:induction false} ResolveWire(env: map<string, StructDecl>, build: Build, s: Shape, n: nat)
    requires GoodShape(s) && !s.PtrTo? && !s.IdOf?
    ensures var w := WireOf(Resolve(env, build, s, n));
            match WireFor(s)
            case "varint" => w == 0
            case "fixed64" => w == 1
            case "fixed32" => w == 3
            case _ => w == 2
  {
    if s.Named? {
      ResolveWire(env, build, s.under, n);
    }
  }

  /** An optional is one byte 0 for nil, one byte 3 for the zero of a predeclared bool, integer or string or of []byte
      (not of a named type), and a byte 1 in front of everything else. */
  lemma {:induction false} OptionalBytes(env: map<string, StructDecl>, build: Build, f: FieldDecl, x: Val, n: nat)
    requires GoodSnap(env) && GoodDecl(f) && !f.cycleBreak && f.optional && GoPlain(env, build, f, x, n)
    ensures Enc(FieldTy(env, build, f, n), VNil) == [1, 0]
    ensures var bytes := Enc(FieldTy(env, build, f, n), VSome(x));
            var elided := f.custom == "" && (f.shape.Basic? || f.shape.SliceOf?)
                          && x == GoZero(env, f.shape, n);
            if elided then bytes == [1, 3]
            else bytes == Delim([1] + Inline(FieldTy(env, build, f, n).target, x))
  {
  }

  /** A slice comes back only within 2^24 elements and 2^24 bytes of memory. */
  lemma {:induction false} SliceBudget(env: map<string, StructDecl>, build: Build, e: Shape, es: seq<Val>, n: nat)
    requires !Uint8(e)
    ensures var t := Resolve(env, build, SliceOf(e), n);
            Survives(t, VSlice(es)) <==>
            && (|es| == 0 || (|es| <= 0x100_0000 && |es| * build.size(e) <= 0x100_0000))
            && forall i :: 0 <= i < |es| ==> Survives(Resolve(env, build, e, n), es[i])
  {
  }

  lemma {:induction false} BasicFitsExactly(p: Prim, o: Option<Override>, v: Val)
    requires GoodPrim(p) && (o.Some? ==> Width(o.value.bits))
    ensures CanEnc(PrimTy(p, o), v) <==> BasicFits(p, o, v)
  {
    if p.PInt? && v.VInt? {
      HoldsInWidth(Promised(p, o), p.signed, v.i);
    }
  }

  lemma {:induction false} KeyFitsExactly(s: Shape, k: Key)
    requires GoodShape(s) && Strip(s).Basic? && !Strip(s).prim.PFloat?
    ensures KeyFits(KeyOf(s), k) <==> KeyPromised(s, k)
  {
    match s
    case Named(_, u) => KeyFitsExactly(u, k);
    case Basic(p) =>
      if p.PInt? && k.IntKey? {
        HoldsInWidth(Promised(p, None), p.signed, k.i);
      }
    case _ =>
  }

  /** MarshalGSBM of a Go value succeeds exactly when the value fits. */
  lemma {:induction false} FitsExactly(env: map<string, StructDecl>, build: Build, s: Shape, v: Val, n: nat)
    requires GoodSnap(env) && GoodShape(s) && GoValue(env, build, s, v, n)
    ensures CanEnc(Resolve(env, build, s, n), v) <==> Fits(env, s, None, v, n)
    decreases n, 0, s, 0
  {
    hide GoodSnap, ResolveFields, GoField, FieldFits, Travels, GoBasic, PrimTy, GoKey, KeyOf, KeyFits, KeyPromised,
      BasicFits;
    match s
    case Basic(p) => BasicFitsExactly(p, None, v);
    case Named(_, u) => FitsExactly(env, build, u, v, n);
    case IdOf(_, id) => FitsExactly(env, build, id, v, n);
    case StructRef(k) =>
      if n > 0 && k in env {
        StructFitsExactly(env, build, k, v, n - 1);
      }
    case SliceOf(e) => SliceFitsExactly(env, build, e, v, n);
    case MapOf(k, e) => MapFitsExactly(env, build, k, e, v, n);
    case PtrTo(e) =>
      if v.VSome? {
        FitsExactly(env, build, e, v.target, n);
      }
  }

  lemma {:induction false} SliceFitsExactly(env: map<string, StructDecl>, build: Build, e: Shape, v: Val, n: nat)
    requires GoodSnap(env) && GoodShape(e) && GoValue(env, build, SliceOf(e), v, n)
    ensures CanEnc(Resolve(env, build, SliceOf(e), n), v) <==> Fits(env, SliceOf(e), None, v, n)
    decreases n, 0, e, 1
  {
    hide GoodSnap;
    var t := Resolve(env, build, e, n);
    if !Uint8(e) {
      forall i | 0 <= i < |v.elems| ensures CanEnc(t, v.elems[i]) <==> Fits(env, e, None, v.elems[i], n) {
        FitsExactly(env, build, e, v.elems[i], n);
      }
    }
  }

  lemma {:induction false} MapFitsExactly(env: map<string, StructDecl>, build: Build, k: Shape, e: Shape, v: Val,
                                          n: nat)
    requires GoodSnap(env) && GoodShape(MapOf(k, e)) && GoValue(env, build, MapOf(k, e), v, n)
    ensures CanEnc(Resolve(env, build, MapOf(k, e), n), v) <==> Fits(env, MapOf(k, e), None, v, n)
    decreases n, 0, e, 1
  {
    hide GoodSnap, KeyFits, KeyOf, KeyPromised;
    var t := Resolve(env, build, e, n);
    forall x | x in v.entries
      ensures KeyFits(KeyOf(k), x) <==> KeyPromised(k, x)
      ensures CanEnc(t, v.entries[x]) <==> Fits(env, e, None, v.entries[x], n)
    {
      KeyFitsExactly(k, x);
      FitsExactly(env, build, e, v.entries[x], n);
    }
  }

  lemma {:induction false} StructFitsExactly(env: map<string, StructDecl>, build: Build, k: string, v: Val, n: nat)
    requires GoodSnap(env) && k in env && GoValue(env, build, StructRef(k), v, n + 1)
    ensures var fs := env[k].fields;
            CanEnc(TStruct(ResolveFields(env, build, fs, n)), v) <==>
            forall i :: 0 <= i < |fs| && Travels(fs[i], v.live, v.vals[i]) ==> FieldFits(env, fs[i], v.vals[i], n)
    decreases n, 3
  {
    hide GoField, ResolveField, GoodDecl, Travels, Written, FieldFits, CanEncField;
    var fs := env[k].fields;
    forall i | 0 <= i < |fs|
      ensures Written(ResolveField(env, build, fs[i], n), v.live, v.vals[i]) <==> Travels(fs[i], v.live, v.vals[i])
      ensures Travels(fs[i], v.live, v.vals[i]) ==>
                (CanEncField(ResolveField(env, build, fs[i], n), v.vals[i]) <==> FieldFits(env, fs[i], v.vals[i], n))
    {
      TravelsExactly(env, build, fs[i], v.live, v.vals[i], n);
      if Travels(fs[i], v.live, v.vals[i]) {
        FieldFitsExactly(env, build, fs[i], v.live, v.vals[i], n);
      }
    }
  }

  lemma {:induction false} FieldFitsExactly(env: map<string, StructDecl>, build: Build, f: FieldDecl, live: set<nat>,
                                            v: Val, n: nat)
    requires GoodSnap(env) && GoodDecl(f) && GoField(env, build, f, live, v, n) && Travels(f, live, v)
    ensures CanEncField(ResolveField(env, build, f, n), v) <==> FieldFits(env, f, v, n)
    decreases n, 2
  {
    hide GoodSnap, Resolve, GoValue, GoZeroField, GoodShape, PrimTy, ScalarTy, Fits;
    if f.cycleBreak {
      IdFitsExactly(env, build, f, v.target, n);
    } else if f.optional {
      OptionalFitsExactly(env, build, f, v, n);
    } else if f.custom == "" {
      PlainFitsExactly(env, build, f, v, n);
    }
  }

  lemma {:induction false} OptionalFitsExactly(env: map<string, StructDecl>, build: Build, f: FieldDecl, v: Val,
                                               n: nat)
    requires GoodSnap(env) && GoodDecl(f) && !f.cycleBreak && f.optional
    requires v.VNil? || (v.VSome? && GoPlain(env, build, f, v.target, n))
    ensures CanEnc(FieldTy(env, build, f, n), v) <==> FieldFits(env, f, v, n)
    decreases n, 1
  {
    var t := FieldTy(env, build, f, n);
    assert t.TOpt? && t.target == if f.custom != "" then TCustom(build.codec(f.custom), f.tag)
                                  else Resolve(env, build, f.shape, n);
    assert f.override_ == None;
    if v.VSome? {
      assert CanEnc(t, v) == CanEnc(t.target, v.target);
      if f.custom == "" {
        FitsExactly(env, build, f.shape, v.target, n);
      }
    }
    hide FieldTy, Resolve, GoValue, Fits;
  }

  lemma {:induction false} IdFitsExactly(env: map<string, StructDecl>, build: Build, f: FieldDecl, v: Val, n: nat)
    requires GoodDecl(f) && f.cycleBreak
    ensures CanEnc(FieldTy(env, build, f, n), v) <==> Fits(env, f.shape, f.override_, v, n)
  {
    IdType(env, build, f, n);
    BasicFitsExactly(Strip(f.shape.id).prim, f.override_, v);
    FitsStrip(env, f.shape.id, f.override_, v, n);
  }

  lemma {:induction false} FitsStrip(env: map<string, StructDecl>, s: Shape, o: Option<Override>, v: Val, n: nat)
    requires Strip(s).Basic?
    ensures Fits(env, s, o, v, n) <==> BasicFits(Strip(s).prim, o, v)
  {
    if s.Named? {
      FitsStrip(env, s.under, o, v, n);
    }
  }

  lemma {:induction false} PlainFitsExactly(env: map<string, StructDecl>, build: Build, f: FieldDecl, v: Val, n: nat)
    requires GoodSnap(env) && GoodDecl(f) && !f.cycleBreak && !f.optional && f.custom == ""
    requires GoValue(env, build, f.shape, v, n)
    ensures CanEnc(FieldTy(env, build, f, n), v) <==> Fits(env, f.shape, f.override_, v, n)
    decreases n, 1
  {
    PlainType(env, build, f, n);
    if f.override_.None? {
      FitsExactly(env, build, f.shape, v, n);
    } else {
      ScalarIs(env, build, f, n);
      BasicFitsExactly(Strip(f.shape).prim, f.override_, v);
      FitsStrip(env, f.shape, f.override_, v, n);
    }
  }
}
