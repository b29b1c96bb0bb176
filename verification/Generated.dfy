/** The wire form of every type, and what the generated UnmarshalGSBM makes of the bytes left in its region.

    The decoder here is a pure function of those bytes and of the value already in the receiver: a field that comes
    twice, or a struct decoded without a Reset, merges into what is there, as the generated code does. */
module Generated {
  import opened Basics
  import opened Varint
  import opened Ops
  import opened Wire
  import opened Schema

  const MAX_ALLOC: nat := 0x100_0000

  predicate IsZero(v: Val) { v == VBool(false) || v == VInt(0) || v == VStr([]) }

  function IntBytes(i: int, signed: bool): seq<byte> {
    if signed then Uvarint(Zigzag(i)) else if i >= 0 then Uvarint(i) else []
  }

  function EncKey(kt: KeyTy, k: Key): seq<byte> {
    match (kt, k)
    case (KBool, BoolKey(b)) => [if b then 1 else 0]
    case (KInt(x), IntKey(i)) => IntBytes(i, x.signed)
    case (KStr, StrKey(s)) => Delim(s)
    case _ => []
  }

  /** The bytes of a value, without a field key. */
  ghost function Enc(t: Ty, v: Val): seq<byte>
    decreases v, 1
  {
    match (t, v)
    case (TBool, VBool(b)) => [if b then 1 else 0]
    case (TInt(x), VInt(i)) => IntBytes(i, x.signed)
    case (TFix(width), VBits(bits)) => LittleEndian(width, bits)
    case (TStr, VStr(s)) => Delim(s)
    case (TCustom(_, _), VStr(s)) => Delim(s)
    case (TSlice(elem, _), VSlice(es)) => Delim(Uvarint(|es|) + EncElems(elem, es))
    case (TMap(kt, vt), VMap(m)) => Delim(Uvarint(|m|) + EncEntries(kt, vt, v, Sorted(m.Keys)))
    case (TOpt(_, _), VNil) => Delim([PresenceByte(Nil)])
    case (TOpt(target, elide), VSome(x)) =>
      Delim(if elide && IsZero(x) then [PresenceByte(PresenceState.Zero)]
          else [PresenceByte(NonZero)] + Inline(target, x))
    case (TStruct(fs), VStruct(live, vs)) => Delim(EncFields(fs, live, vs))
    case _ => []
  }

  /** Behind a presence byte a struct is not wrapped again. */
  ghost function Inline(t: Ty, v: Val): seq<byte>
    decreases v, 2
  {
    match (t, v)
    case (TStruct(fs), VStruct(live, vs)) => EncFields(fs, live, vs)
    case _ => Enc(t, v)
  }

  ghost function EncElems(t: Ty, es: seq<Val>): seq<byte>
    decreases es, 0
  {
    if |es| == 0 then [] else Enc(t, es[0]) + EncElems(t, es[1..])
  }

  /** Map entries in key order. */
  ghost function EncEntries(kt: KeyTy, vt: Ty, v: Val, ks: seq<Key>): seq<byte>
    requires v.VMap?
    decreases v, 0, |ks|
  {
    if |ks| == 0 then []
    else if ks[0] !in v.entries then EncEntries(kt, vt, v, ks[1..])
    else EncKey(kt, ks[0]) + Enc(vt, v.entries[ks[0]]) + EncEntries(kt, vt, v, ks[1..])
  }

  ghost function EncFields(fs: seq<Field>, live: set<nat>, vs: seq<Val>): seq<byte>
    decreases vs, 0
  {
    if |fs| == 0 || |vs| == 0 then [] else EncField(fs[0], live, vs[0]) + EncFields(fs[1..], live, vs[1..])
  }

  ghost function EncField(f: Field, live: set<nat>, v: Val): seq<byte>
    decreases v, 3
  {
    if !Written(f, live, v) then [] else FieldKey(f) + Payload(f, v)
  }

  function FieldKey(f: Field): seq<byte> { Uvarint(f.tag * 8 + WireOf(f.ty)) }

  ghost function Payload(f: Field, v: Val): seq<byte>
    decreases v, 2
  {
    if !f.idRef then Enc(f.ty, v) else if v.VSome? then Enc(f.ty, v.target) else []
  }

  predicate KeyFits(kt: KeyTy, k: Key) {
    kt.KInt? && k.IntKey? ==> InWidth(k.i, kt.num.wire, kt.num.signed)
  }

  /** The generated marshal returns no error: every integer it writes fits its wire width, every codec has answered. */
  ghost predicate CanEnc(t: Ty, v: Val)
    decreases v, 1
  {
    match (t, v)
    case (TInt(x), VInt(i)) => InWidth(i, x.wire, x.signed)
    case (TCustom(_, _), VLive(_)) => false
    case (TSlice(elem, _), VSlice(es)) => forall i :: 0 <= i < |es| ==> CanEnc(elem, es[i])
    case (TMap(kt, vt), VMap(m)) => forall k :: k in m ==> KeyFits(kt, k) && CanEnc(vt, m[k])
    case (TOpt(target, _), VSome(x)) => CanEnc(target, x)
    case (TStruct(fs), VStruct(live, vs)) =>
      |fs| == |vs| && forall i :: 0 <= i < |fs| && Written(fs[i], live, vs[i]) ==> CanEncField(fs[i], vs[i])
    case _ => true
  }

  ghost predicate CanEncField(f: Field, v: Val)
    decreases v, 2
  {
    if !f.idRef then CanEnc(f.ty, v) else v.VSome? ==> CanEnc(f.ty, v.target)
  }

  function DecInt(x: IntTy, s: seq<byte>): (r: Result<(int, nat)>)
    ensures r.Ok? ==> 1 <= r.value.1 <= |s|
  {
    var (u, n) :- ReadUvarint(s);
    var i := if x.signed then Unzigzag(u) else u;
    if x.wire < 64 && !InWidth(i, x.wire, x.signed) then Err(IntegerOverflow) else Ok((i, n))
  }

  function DecBool(s: seq<byte>): (r: Result<(bool, nat)>)
    ensures r.Ok? ==> 1 <= r.value.1 <= |s|
  {
    var (u, n) :- ReadUvarint(s);
    Ok((u != 0, n))
  }

  function DecKey(kt: KeyTy, s: seq<byte>): (r: Result<(Key, nat)>)
    ensures r.Ok? ==> 1 <= r.value.1 <= |s|
  {
    match kt
    case KBool => var (b, n) :- DecBool(s); Ok((BoolKey(b), n))
    case KInt(x) => var (i, n) :- DecInt(x, s); Ok((IntKey(i), n))
    case KStr => var (b, n) :- DelimAt(s); Ok((StrKey(b), n))
  }

  /** MakeSlice's budget. */
  predicate OverBudget(count: nat, size: nat) { count > MAX_ALLOC || count * size > MAX_ALLOC }

  /** A value of type t from the front of s, over the value cur that was there. */
  function DecVal(t: Ty, s: seq<byte>, cur: Val): (r: Result<(Val, nat)>)
    ensures r.Ok? ==> r.value.1 <= |s|
    decreases |s|, 1
  {
    match t
    case TBool => var (b, n) :- DecBool(s); Ok((VBool(b), n))
    case TInt(x) => var (i, n) :- DecInt(x, s); Ok((VInt(i), n))
    case TFix(width) => var (bits, n) :- FixedAt(s, width); Ok((VBits(bits), n))
    case TStr => var (b, n) :- DelimAt(s); Ok((VStr(b), n))
    case TCustom(_, _) => var (b, n) :- DelimAt(s); Ok((VStr(b), n))
    case TSlice(elem, size) =>
      var (body, n) :- DelimAt(s);
      var (count, k) :- CountAt(body);
      if count > 0 && OverBudget(count, size) then Err(AllocTooLarge) else
      var (es, used) :- DecElems(elem, count, body[k..]);
      if k + used < |body| then Err(TrailingBytes)
      else Ok((if count > 0 then VSlice(es) else if cur.VSlice? then cur else VSlice([]), n))
    case TMap(kt, vt) =>
      var (body, n) :- DelimAt(s);
      var (count, k) :- CountAt(body);
      var (m, used) :- DecEntries(kt, vt, count, body[k..], if cur.VMap? then cur.entries else map[]);
      if k + used < |body| then Err(TrailingBytes) else Ok((VMap(m), n))
    case TOpt(target, elide) =>
      var (body, n) :- DelimAt(s);
      var (p, _) :- PresenceAt(body, elide);
      (match p
       case Nil => if 1 < |body| then Err(TrailingBytes) else Ok((VNil, n))
       case Zero => if 1 < |body| then Err(TrailingBytes) else Ok((VSome(Schema.Zero(target)), n))
       case NonZero =>
         var (x, used) :- DecInline(target, body[1..]);
         if 1 + used < |body| then Err(TrailingBytes) else Ok((VSome(x), n)))
    case TStruct(fs) =>
      var (body, n) :- DelimAt(s);
      var (live, vs) :- DecFields(fs, body, if cur.VStruct? then cur.live else {}, Held(fs, cur));
      Ok((VStruct(live, vs), n))
  }

  /** The fields a receiver holds. */
  function Held(fs: seq<Field>, cur: Val): (vs: seq<Val>)
    ensures |vs| == |fs|
  {
    if cur.VStruct? && |cur.vals| == |fs| then cur.vals else ZeroFields(fs)
  }

  function DecInline(t: Ty, s: seq<byte>): (r: Result<(Val, nat)>)
    ensures r.Ok? ==> r.value.1 <= |s|
    decreases |s|, 2
  {
    match t
    case TStruct(fs) =>
      var (live, vs) :- DecFields(fs, s, {}, ZeroFields(fs));
      Ok((VStruct(live, vs), |s|))
    case _ => DecVal(t, s, Schema.Zero(t))
  }

  /** The element loop: every slot is reset before it is read. */
  function DecElems(t: Ty, count: nat, s: seq<byte>): (r: Result<(seq<Val>, nat)>)
    ensures r.Ok? ==> r.value.1 <= |s| && |r.value.0| == count
    decreases |s|, 2, count
  {
    if count == 0 then Ok(([], 0)) else
    var (v, n) :- DecVal(t, s, Schema.Zero(t));
    var (vs, m) :- DecElems(t, count - 1, s[n..]);
    Ok(([v] + vs, n + m))
  }

  function DecEntries(kt: KeyTy, vt: Ty, count: nat, s: seq<byte>, m: map<Key, Val>): (r: Result<(map<Key, Val>, nat)>)
    ensures r.Ok? ==> r.value.1 <= |s|
    decreases |s|, 2
  {
    if count == 0 then Ok((m, 0)) else
    var (k, a) :- DecKey(kt, s);
    var (v, b) :- DecVal(vt, s[a..], Schema.Zero(vt));
    var (out, c) :- DecEntries(kt, vt, count - 1, s[a + b..], m[k := v]);
    Ok((out, a + b + c))
  }

  /** The loop of UnmarshalGSBM: until the region is used up, a key, then a known field or a skip. */
  function DecFields(fs: seq<Field>, s: seq<byte>, live: set<nat>, vs: seq<Val>): (r: Result<(set<nat>, seq<Val>)>)
    requires |vs| == |fs|
    ensures r.Ok? ==> |r.value.1| == |fs|
    decreases |s|, 0
  {
    if |s| == 0 then Ok((live, vs)) else
    var ((tag, wire), n) :- TagAt(s);
    match Find(fs, tag)
    case None =>
      var k :- SkipAt(s[n..], wire);
      DecFields(fs, s[n + k..], live, vs)
    case Some(i) =>
      if wire != WireOf(fs[i].ty) then Err(WrongWireType) else
      var (v, k) :- DecField(fs[i], s[n..], vs[i]);
      DecFields(fs, s[n + k..], live + fs[i].hops, vs[i := v])
  }

  function DecField(f: Field, s: seq<byte>, cur: Val): (r: Result<(Val, nat)>)
    ensures r.Ok? ==> r.value.1 <= |s|
    decreases |s|, 2
  {
    if !f.idRef then DecVal(f.ty, s, cur) else
    var (v, n) :- DecVal(f.ty, s, Schema.Zero(f.ty));
    Ok((VSome(v), n))
  }
}
