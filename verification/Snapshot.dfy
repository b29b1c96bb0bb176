/** Schema snapshots: what the classifier compares, and the codec type a field of a snapshot stands for. */
module Snapshot {
  import opened Basics
  import opened Ops
  import opened Schema
  import opened Evolution
  import opened RoundTrip
  import opened Projection

  /** Go's basic kinds. platform marks int, uint and uintptr; alias the second spelling of a kind: byte, rune and
      uintptr. */
  datatype Prim = PBool | PInt(bits: nat, signed: bool, platform: bool, alias: bool) | PString | PFloat(bytes: nat)

  /** The type a FieldDecl's Type string is printed from (ShapeText has the printing). */
  datatype Shape =
    | Basic(prim: Prim)
    // a named type that is not a struct
    | Named(name: string, under: Shape)
    | StructRef(key: string)
    | SliceOf(elem: Shape)
    | MapOf(key_: Shape, val: Shape)
    | PtrTo(pointee: Shape)
    // an id_ref: the target's shape and its identifier's
    | IdOf(base: Shape, id: Shape)

  datatype Override = Override(bits: nat, signed: bool)

  /** A named slice alias: its name and what it names. */
  datatype Alias = Alias(name: string, under: Option<string>)

  datatype FieldDecl = FieldDecl(name: string, tag: nat, shape: Shape, wire: string, optional: bool, deprecated: bool,
                                 compatWrite: bool, cycleBreak: bool, keyUnder: string, custom: string,
                                 override_: Option<Override>, alias: Option<Alias>, flattened: string,
                                 hops: set<nat>)

  datatype StructDecl = StructDecl(fields: seq<FieldDecl>, reserved: set<nat>, isOpaque: bool, allowBreaking: string)

  datatype Snap = Snap(roots: set<string>, structs: map<string, StructDecl>)

  /** What a build adds to a snapshot: element sizes in memory and the registered codecs, all with length-delimited
      payloads. */
  datatype Build = Build(size: Shape -> nat, codec: string -> CodecKind)

  function LifecycleState(f: FieldDecl): Lifecycle {
    if f.deprecated && f.compatWrite then CompatWrite else if f.deprecated then Deprecated else Active
  }

  function Strip(s: Shape): Shape { if s.Named? then Strip(s.under) else s }

  predicate IsByte(s: Shape) { s.Basic? && s.prim.PInt? && s.prim.bits == 8 && !s.prim.signed && !s.prim.platform }

  /** Types whose zero an optional may elide. */
  predicate IsBuiltin(s: Shape) { s.Basic? || (s.SliceOf? && IsByte(s.elem)) }

  /** A platform integer travels as 32 bits unless overridden. */
  function IntOf(p: Prim, o: Option<Override>): IntTy
    requires p.PInt?
  {
    IntTy(if p.platform then 64 else p.bits, if o.Some? then o.value.bits else if p.platform then 32
        else p.bits, p.signed)
  }

  function PrimTy(p: Prim, o: Option<Override>): Ty {
    match p
    case PBool => TBool
    case PInt(_, _, _, _) => TInt(IntOf(p, o))
    case PString => TStr
    case PFloat(bytes) => TFix(bytes)
  }

  function KeyOf(s: Shape): KeyTy {
    match Strip(s)
    case Basic(PBool) => KBool
    case Basic(PInt(b, g, p, a)) => KInt(IntOf(PInt(b, g, p, a), None))
    case _ => KStr
  }

  /** The codec type of a shape, n structs deep. An acyclic snapshot is exhausted at some depth. */
  function Resolve(env: map<string, StructDecl>, build: Build, s: Shape, n: nat): Ty
    decreases n, 0, s
  {
    match s
    case Basic(p) => PrimTy(p, None)
    case Named(_, u) => Resolve(env, build, u, n)
    case StructRef(k) =>
      if n == 0 || k !in env then TStruct([]) else TStruct(ResolveFields(env, build, env[k].fields, n - 1))
    case SliceOf(e) => if IsByte(e) then TStr else TSlice(Resolve(env, build, e, n), build.size(e))
    case MapOf(k, v) => TMap(KeyOf(k), Resolve(env, build, v, n))
    case PtrTo(e) => TOpt(Resolve(env, build, e, n), false)
    case IdOf(_, id) => Resolve(env, build, id, n)
  }

  function ResolveFields(env: map<string, StructDecl>, build: Build, fs: seq<FieldDecl>, n: nat): (out: seq<Field>)
    ensures |out| == |fs| && forall i :: 0 <= i < |fs| ==> out[i] == ResolveField(env, build, fs[i], n)
    decreases n, 3, fs
  {
    if |fs| == 0 then [] else [ResolveField(env, build, fs[0], n)] + ResolveFields(env, build, fs[1..], n)
  }

  function ResolveField(env: map<string, StructDecl>, build: Build, f: FieldDecl, n: nat): Field
    decreases n, 2
  {
    Field(f.tag, FieldTy(env, build, f, n), f.cycleBreak, LifecycleState(f), f.hops)
  }

  /** emitFieldEncode's order of cases. */
  function FieldTy(env: map<string, StructDecl>, build: Build, f: FieldDecl, n: nat): Ty
    decreases n, 1
  {
    if f.cycleBreak then ScalarTy(f.shape, f.override_)
    else if f.custom != "" then
      (if f.optional then TOpt(TCustom(build.codec(f.custom), f.tag), false) else TCustom(build.codec(f.custom), f.tag))
    else if f.optional then TOpt(Resolve(env, build, f.shape, n), IsBuiltin(f.shape))
    else if f.override_.Some? then ScalarTy(f.shape, f.override_)
    else Resolve(env, build, f.shape, n)
  }

  /** The leaf an override or an id_ref applies to. */
  function ScalarTy(s: Shape, o: Option<Override>): Ty {
    match Strip(if s.IdOf? then s.id else s)
    case Basic(p) => PrimTy(p, o)
    case _ => TStr
  }

  /** What discovery and validation establish about a shape. */
  predicate GoodShape(s: Shape) {
    match s
    case Basic(p) => GoodPrim(p)
    // a name of a slice of anything but bytes is unwrapped before it is printed
    case Named(_, u) => (u.Basic? && GoodPrim(u.prim)) || (u.SliceOf? && IsByte(u.elem))
    case StructRef(_) => true
    case SliceOf(e) => GoodShape(e) && !e.IdOf? && (e.PtrTo? ==> e.pointee.StructRef?)
    case MapOf(k, v) => GoodShape(k) && Strip(k).Basic? && !Strip(k).prim.PFloat? && GoodShape(v) && !v.PtrTo?
        && !v.IdOf?
    case PtrTo(e) => GoodShape(e) && e.StructRef?
    case IdOf(base, id) => base.StructRef? && GoodShape(id) && IsScalar(id)
  }

  predicate GoodPrim(p: Prim) {
    match p
    case PInt(bits, signed, platform, alias) =>
      && Width(bits) && (platform ==> bits == 64)
      && (alias ==> if platform then !signed else (bits == 8 && !signed) || (bits == 32 && signed))
    case PFloat(bytes) => bytes == 4 || bytes == 8
    case _ => true
  }

  /** An integer or a string, possibly under a name. */
  predicate IsScalar(s: Shape) { Strip(s).Basic? && (Strip(s).prim.PInt? || Strip(s).prim.PString?) }

  /** WireOverrideCompat accepts the override. */
  predicate OverrideFits(p: Prim, o: Override) {
    && p.PInt? && o.signed == p.signed && Width(o.bits)
    && if p.platform then 32 <= o.bits else o.bits <= p.bits
  }

  /** wireFor: the label of a shape's wire type; a pointer has that of what it points to, an id_ref that of its
      identifier. */
  function WireFor(s: Shape): string {
    match s
    case Basic(PFloat(bytes)) => if bytes == 4 then "fixed32" else "fixed64"
    case Basic(PString) => "length-delim"
    case Basic(_) => "varint"
    case Named(_, u) => WireFor(u)
    case PtrTo(e) => WireFor(e)
    case IdOf(_, id) => WireFor(id)
    case _ => "length-delim"
  }

  predicate GoodDecl(f: FieldDecl) {
    && 1 <= f.tag <= MAX_TAG && GoodShape(f.shape) && f.wire == (if f.custom != "" then "" else WireFor(f.shape))
    && (f.cycleBreak <==> f.shape.IdOf?) && (f.cycleBreak ==> f.custom == "")
    && !f.shape.PtrTo?
    && (f.optional && f.custom == "" && !f.cycleBreak ==>
          f.shape.StructRef? || IsBytes(f.shape) || (Strip(f.shape).Basic? && !Strip(f.shape).prim.PFloat?))
    && (f.override_.Some? ==>
          && (f.cycleBreak || (f.custom == "" && !f.optional))
          && Leaf(f.shape).Basic? && OverrideFits(Leaf(f.shape).prim, f.override_.value))
  }

  predicate IsBytes(s: Shape) { Strip(s).SliceOf? && IsByte(Strip(s).elem) }

  function Leaf(s: Shape): Shape { Strip(if s.IdOf? then s.id else s) }

  predicate DistinctDecls(fs: seq<FieldDecl>) {
    forall i, j :: 0 <= i < j < |fs| ==> fs[i].tag != fs[j].tag
  }

  /** A validated snapshot without handwritten (opaque) structs. */
  predicate GoodSnap(env: map<string, StructDecl>) {
    forall k :: k in env ==>
      && DistinctDecls(env[k].fields) && !env[k].isOpaque
      && forall i :: 0 <= i < |env[k].fields| ==> GoodDecl(env[k].fields[i])
  }

  lemma {:induction false} StripGood(s: Shape)
    requires GoodShape(s)
    ensures GoodShape(Strip(s)) && !Strip(s).Named?
  {
    if s.Named? {
      StripGood(s.under);
    }
  }

  lemma {:induction false} ResolveStrip(env: map<string, StructDecl>, build: Build, s: Shape, n: nat)
    ensures Resolve(env, build, s, n) == Resolve(env, build, Strip(s), n)
  {
    if s.Named? {
      ResolveStrip(env, build, s.under, n);
    }
  }

  /** A validated snapshot resolves to validated types. */
  lemma {:induction false} ResolveGood(env: map<string, StructDecl>, build: Build, s: Shape, n: nat)
    requires GoodSnap(env) && GoodShape(s)
    ensures GoodTy(Resolve(env, build, s, n))
    decreases n, 0, s
  {
    match s
    case Basic(_) =>
    case Named(_, u) => ResolveGood(env, build, u, n);
    case StructRef(k) =>
      if n > 0 && k in env {
        ResolveGoodFields(env, build, env[k].fields, n - 1);
      }
    case SliceOf(e) =>
      if !IsByte(e) {
        ResolveGood(env, build, e, n);
        ElementKind(env, build, e, n);
      }
    case MapOf(k, v) =>
      StripGood(k);
      ResolveGood(env, build, v, n);
      ElementKind(env, build, v, n);
    case PtrTo(e) => ResolveGood(env, build, e, n);
    case IdOf(_, id) => ResolveGood(env, build, id, n);
  }

  /** Only a pointer resolves to a pointer, and no shape to a custom codec. */
  lemma {:induction false} ElementKind(env: map<string, StructDecl>, build: Build, s: Shape, n: nat)
    requires GoodShape(s) && !s.IdOf?
    ensures !Resolve(env, build, s, n).TCustom?
    ensures s.PtrTo? <==> Resolve(env, build, s, n).TOpt?
    ensures s.PtrTo? && s.pointee.StructRef? ==> Resolve(env, build, s, n).target.TStruct?
  {
    if s.Named? {
      ElementKind(env, build, s.under, n);
    }
  }

  lemma {:induction false} ResolveGoodFields(env: map<string, StructDecl>, build: Build, fs: seq<FieldDecl>, n: nat)
    requires GoodSnap(env) && DistinctDecls(fs) && forall i :: 0 <= i < |fs| ==> GoodDecl(fs[i])
    ensures GoodFields(ResolveFields(env, build, fs, n))
    decreases n, 3
  {
    forall i | 0 <= i < |fs| ensures GoodField(ResolveField(env, build, fs[i], n)) {
      ResolveGoodField(env, build, fs[i], n);
    }
  }

  lemma {:induction false} ResolveGoodField(env: map<string, StructDecl>, build: Build, f: FieldDecl, n: nat)
    requires GoodSnap(env) && GoodDecl(f)
    ensures GoodField(ResolveField(env, build, f, n))
    decreases n, 2
  {
    StripGood(f.shape);
    if f.cycleBreak {
      StripGood(f.shape.id);
    } else if f.custom == "" {
      ResolveGood(env, build, f.shape, n);
      ResolveStrip(env, build, f.shape, n);
    }
  }

  function FindDecl(fs: seq<FieldDecl>, tag: nat): (r: Option<nat>)
    ensures r.Some? ==> r.value < |fs| && fs[r.value].tag == tag
    ensures r.None? ==> forall i :: 0 <= i < |fs| ==> fs[i].tag != tag
  {
    if |fs| == 0 then None
    else if fs[0].tag == tag then Some(0)
    else match FindDecl(fs[1..], tag)
      case None => None
      case Some(i) => Some(i + 1)
  }

  lemma {:induction false} FindResolved(env: map<string, StructDecl>, build: Build, fs: seq<FieldDecl>, n: nat,
                                        tag: nat)
    ensures Find(ResolveFields(env, build, fs, n), tag) == FindDecl(fs, tag)
    decreases |fs|
  {
    hide ResolveField;
    if |fs| > 0 {
      var out := ResolveFields(env, build, fs, n);
      assert out[1..] == ResolveFields(env, build, fs[1..], n);
      assert out[0].tag == fs[0].tag by {
        ResolvedTag(env, build, fs[0], n);
      }
      FindResolved(env, build, fs[1..], n, tag);
    }
  }

  lemma {:induction false} ResolvedTag(env: map<string, StructDecl>, build: Build, f: FieldDecl, n: nat)
    ensures ResolveField(env, build, f, n).tag == f.tag && ResolveField(env, build, f, n).state == LifecycleState(f)
  {
  }

  /** The width an integer field promises on the wire. */
  function WireBits(f: FieldDecl): nat {
    match Leaf(f.shape)
    case Basic(PInt(b, g, p, a)) => IntOf(PInt(b, g, p, a), f.override_).wire
    case _ => 0
  }

  predicate Overridable(f: FieldDecl) { f.cycleBreak || (f.custom == "" && !f.optional) }

  /** Both declarations put the same kind of value under their tag; wider: r promises at least the width of w. */
  predicate SameKind(w: FieldDecl, r: FieldDecl, wider: bool) {
    && w.shape == r.shape && w.optional == r.optional && w.cycleBreak == r.cycleBreak && w.custom == r.custom
    && (wider && Overridable(w) ==> WireBits(w) <= WireBits(r))
  }

  /** Whatever a writer under env w may send, a reader under env r takes for the same kind of value. */
  predicate Keeps(w: map<string, StructDecl>, r: map<string, StructDecl>, wider: bool) {
    forall k, i :: k in w && k in r && 0 <= i < |w[k].fields| ==>
      var f := w[k].fields[i];
      LifecycleState(f) != Deprecated && FindDecl(r[k].fields, f.tag).Some? ==>
        SameKind(f, r[k].fields[FindDecl(r[k].fields, f.tag).value], wider)
  }

  /** Nothing a writer under env w may send is unknown to a reader under env r. */
  predicate Retains(w: map<string, StructDecl>, r: map<string, StructDecl>) {
    forall k :: k in w ==> k in r && forall i :: 0 <= i < |w[k].fields| ==>
      LifecycleState(w[k].fields[i]) != Deprecated ==> FindDecl(r[k].fields, w[k].fields[i].tag).Some?
  }

  ghost predicate Carries(w: Ty, r: Ty, wider: bool, all: bool) {
    Compat(w, r) && (wider ==> NoNarrowing(w, r)) && (all ==> Covers(w, r))
  }

  /** The environments of a writer and a reader, both validated. */
  ghost predicate Pair(w: map<string, StructDecl>, r: map<string, StructDecl>, wider: bool, all: bool) {
    GoodSnap(w) && GoodSnap(r) && Keeps(w, r, wider) && (all ==> Retains(w, r))
  }

  lemma {:induction false} ResolveCarries(w: map<string, StructDecl>, r: map<string, StructDecl>, wider: bool,
                                          all: bool, a: Build, b: Build,
                                          s: Shape, n: nat)
    requires Pair(w, r, wider, all) && GoodShape(s)
    ensures Carries(Resolve(w, a, s, n), Resolve(r, b, s, n), wider, all)
    decreases n, 0, s
  {
    hide GoodSnap, Keeps, Carries, ResolveFields, PrimTy, KeyOf, Strip;
    CarriesStr(wider, all);
    match s
    case Basic(p) => CarriesPrim(p, wider, all);
    case Named(_, u) => ResolveCarries(w, r, wider, all, a, b, u, n);
    case StructRef(k) =>
      if n > 0 && k in w && k in r {
        FieldsCarry(w, r, wider, all, a, b, k, n - 1);
      } else {
        NothingShared(Resolve(w, a, s, n).fields, Resolve(r, b, s, n).fields, wider, all);
      }
    case SliceOf(e) =>
      ResolveCarries(w, r, wider, all, a, b, e, n);
      CarriesAround(Resolve(w, a, e, n), Resolve(r, b, e, n), wider, all, a.size(e), b.size(e), KBool);
    case MapOf(k, v) =>
      ResolveCarries(w, r, wider, all, a, b, v, n);
      CarriesAround(Resolve(w, a, v, n), Resolve(r, b, v, n), wider, all, 0, 0, KeyOf(k));
    case PtrTo(e) =>
      ResolveCarries(w, r, wider, all, a, b, e, n);
      CarriesAround(Resolve(w, a, e, n), Resolve(r, b, e, n), wider, all, 0, 0, KBool);
    case IdOf(_, id) => ResolveCarries(w, r, wider, all, a, b, id, n);
  }

  lemma {:induction false} CarriesStr(wider: bool, all: bool)
    ensures Carries(TStr, TStr, wider, all)
  {
  }

  lemma {:induction false} CarriesPrim(p: Prim, wider: bool, all: bool)
    requires GoodShape(Basic(p))
    ensures Carries(PrimTy(p, None), PrimTy(p, None), wider, all)
  {
  }

  /** A composite carries what its element does. */
  lemma {:induction false} CarriesAround(x: Ty, y: Ty, wider: bool, all: bool, m: nat, n: nat, k: KeyTy)
    requires Carries(x, y, wider, all)
    ensures Carries(TSlice(x, m), TSlice(y, n), wider, all)
    ensures Carries(TMap(k, x), TMap(k, y), wider, all)
    ensures Carries(TOpt(x, false), TOpt(y, false), wider, all)
  {
  }

  /** A struct one side does not describe is skipped or left at zero. */
  lemma {:induction false} NothingShared(ws: seq<Field>, rs: seq<Field>, wider: bool, all: bool)
    requires |ws| == 0 || (|rs| == 0 && !all)
    ensures Carries(TStruct(ws), TStruct(rs), wider, all)
  {
  }

  lemma {:induction false} FieldsCarry(w: map<string, StructDecl>, r: map<string, StructDecl>, wider: bool, all: bool,
                                       a: Build, b: Build,
                                       k: string, n: nat)
    requires Pair(w, r, wider, all) && k in w && k in r
    ensures Carries(TStruct(ResolveFields(w, a, w[k].fields, n)), TStruct(ResolveFields(r, b, r[k].fields, n)), wider,
            all)
    decreases n, 3
  {
    var fs, gs := w[k].fields, r[k].fields;
    var ws, rs := ResolveFields(w, a, fs, n), ResolveFields(r, b, gs, n);
    forall i | 0 <= i < |ws| && ws[i].state != Deprecated
      ensures all ==> Find(rs, ws[i].tag).Some?
      ensures Find(rs, ws[i].tag).Some? ==> var j := Find(rs, ws[i].tag).value;
        CompatField(ws[i], rs[j]) && (wider ==> FieldNotNarrowed(ws[i], rs[j])) && (all ==> CoversField(ws[i], rs[j]))
    {
      ResolvedTag(w, a, fs[i], n);
      FindResolved(r, b, gs, n, fs[i].tag);
      if FindDecl(gs, fs[i].tag).Some? {
        FieldCarries(w, r, wider, all, a, b, fs[i], gs[FindDecl(gs, fs[i].tag).value], n);
      }
    }
  }

  lemma {:induction false} FieldCarries(w: map<string, StructDecl>, r: map<string, StructDecl>, wider: bool, all: bool,
                                        a: Build, b: Build,
                                        f: FieldDecl, g: FieldDecl, n: nat)
    requires Pair(w, r, wider, all) && GoodDecl(f) && GoodDecl(g) && SameKind(f, g, wider)
    ensures ResolveField(w, a, f, n).idRef == ResolveField(r, b, g, n).idRef
    ensures Carries(FieldTy(w, a, f, n), FieldTy(r, b, g, n), wider, all)
    decreases n, 2
  {
    hide GoodSnap, Keeps, Carries, PrimTy, Resolve;
    if f.cycleBreak {
      StripGood(f.shape.id);
      ScalarCarries(f, g, wider, all);
    } else if f.custom == "" {
      ResolveCarries(w, r, wider, all, a, b, f.shape, n);
      if f.optional {
        CarriesOpt(Resolve(w, a, f.shape, n), Resolve(r, b, f.shape, n), wider, all, IsBuiltin(f.shape));
      } else if f.override_.Some? || g.override_.Some? {
        StripGood(f.shape);
        ScalarCarries(f, g, wider, all);
        ScalarIs(w, a, f, n);
        ScalarIs(r, b, g, n);
      }
    } else {
      CarriesCustom(a.codec(f.custom), b.codec(g.custom), f.tag, g.tag, wider, all);
    }
  }

  lemma {:induction false} CarriesOpt(x: Ty, y: Ty, wider: bool, all: bool, elide: bool)
    requires Carries(x, y, wider, all)
    ensures Carries(TOpt(x, elide), TOpt(y, elide), wider, all)
  {
  }

  lemma {:induction false} CarriesCustom(j: CodecKind, k: CodecKind, m: nat, n: nat, wider: bool, all: bool)
    ensures Carries(TCustom(j, m), TCustom(k, n), wider, all)
    ensures Carries(TOpt(TCustom(j, m), false), TOpt(TCustom(k, n), false), wider, all)
  {
  }

  /** With or without an override, a plain field over a scalar is that scalar. */
  lemma {:induction false} ScalarIs(env: map<string, StructDecl>, build: Build, f: FieldDecl, n: nat)
    requires !f.cycleBreak && f.custom == "" && !f.optional && !f.shape.IdOf? && Strip(f.shape).Basic?
    ensures FieldTy(env, build, f, n) == ScalarTy(f.shape, f.override_)
  {
    hide PrimTy;
    ResolveStrip(env, build, f.shape, n);
    assert Resolve(env, build, Strip(f.shape), n) == PrimTy(Strip(f.shape).prim, None);
  }

  /** The leaf under an override or an id_ref. */
  lemma {:induction false} ScalarCarries(f: FieldDecl, g: FieldDecl, wider: bool, all: bool)
    requires GoodDecl(f) && GoodDecl(g) && SameKind(f, g, wider) && Overridable(f) && Leaf(f.shape).Basic?
             && GoodShape(Leaf(f.shape))
    requires Leaf(f.shape).prim.PInt? || Leaf(f.shape).prim.PString?
    ensures Carries(ScalarTy(f.shape, f.override_), ScalarTy(g.shape, g.override_), wider, all)
  {
  }

  /** Every struct a shape descends into ranks below bound. */
  predicate RefsBelow(env: map<string, StructDecl>, rank: map<string, nat>, s: Shape, bound: nat) {
    match s
    case Basic(_) => true
    case StructRef(k) => k in env ==> k in rank && rank[k] < bound
    case Named(_, u) => RefsBelow(env, rank, u, bound)
    case SliceOf(e) => RefsBelow(env, rank, e, bound)
    case MapOf(_, v) => RefsBelow(env, rank, v, bound)
    case PtrTo(e) => RefsBelow(env, rank, e, bound)
    case IdOf(_, id) => RefsBelow(env, rank, id, bound)
  }

  /** A field that descends into the structs of its type: an id_ref and a custom field do not. */
  predicate Descends(f: FieldDecl) { !f.cycleBreak && f.custom == "" }

  /** Containment is acyclic: every ranked struct ranks above all that its fields descend into. */
  predicate Falls(env: map<string, StructDecl>, rank: map<string, nat>) {
    forall k :: k in rank ==> k in env && forall i :: 0 <= i < |env[k].fields| && Descends(env[k].fields[i]) ==>
      RefsBelow(env, rank, env[k].fields[i].shape, rank[k])
  }

  lemma {:induction false} RefsBelowMore(env: map<string, StructDecl>, rank: map<string, nat>, s: Shape, a: nat, b: nat)
    requires RefsBelow(env, rank, s, a) && a <= b
    ensures RefsBelow(env, rank, s, b)
  {
    match s
    case Named(_, u) => RefsBelowMore(env, rank, u, a, b);
    case SliceOf(e) => RefsBelowMore(env, rank, e, a, b);
    case MapOf(_, v) => RefsBelowMore(env, rank, v, a, b);
    case PtrTo(e) => RefsBelowMore(env, rank, e, a, b);
    case IdOf(_, id) => RefsBelowMore(env, rank, id, a, b);
    case _ =>
  }

  /** From the depth of its rank on, a shape resolves to one and the same type: its real one. */
  lemma {:induction false} Settled(env: map<string, StructDecl>, build: Build, rank: map<string, nat>, s: Shape, n: nat,
                                   m: nat)
    requires Falls(env, rank) && RefsBelow(env, rank, s, n) && n <= m
    ensures Resolve(env, build, s, n) == Resolve(env, build, s, m)
    decreases n, 0, s
  {
    hide Falls, PrimTy, KeyOf, IsByte;
    match s
    case Basic(_) =>
    case StructRef(k) =>
      if k in env {
        SettledFields(env, build, rank, k, n - 1, m - 1);
      }
    case Named(_, u) => Settled(env, build, rank, u, n, m);
    case SliceOf(e) => Settled(env, build, rank, e, n, m);
    case MapOf(_, v) => Settled(env, build, rank, v, n, m);
    case PtrTo(e) => Settled(env, build, rank, e, n, m);
    case IdOf(_, id) => Settled(env, build, rank, id, n, m);
  }

  /** The fields of a struct of rank at most n have settled at depth n. */
  lemma {:induction false} SettledFields(env: map<string, StructDecl>, build: Build, rank: map<string, nat>, k: string,
                                         n: nat, m: nat)
    requires Falls(env, rank) && k in rank && rank[k] <= n <= m
    ensures ResolveFields(env, build, env[k].fields, n) == ResolveFields(env, build, env[k].fields, m)
    decreases n, 3
  {
    var fs := env[k].fields;
    forall i | 0 <= i < |fs| ensures ResolveField(env, build, fs[i], n) == ResolveField(env, build, fs[i], m) {
      if Descends(fs[i]) {
        RefsBelowMore(env, rank, fs[i].shape, rank[k], n);
        Settled(env, build, rank, fs[i].shape, n, m);
      }
    }
  }
}
