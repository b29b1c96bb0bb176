/** A body written under one schema and read under another.

    Convert says, on values alone, what the reader must end up with: the writer's fields it also declares, its own zero
    values elsewhere, an overflow where it promises a narrower integer, a refusal where a slice exceeds the budget.
    ReadsVal is the one theorem: decoding the writer's bytes is Convert. Round trip, skipping of unknown fields and
    both directions of schema change are instances of it. */
module Evolution {
  import opened Basics
  import opened Varint
  import opened Ops
  import opened Wire
  import opened Schema
  import opened Generated

  /** What a writer of type w and a reader of type r must agree on for bytes to keep their meaning. */
  ghost predicate Compat(w: Ty, r: Ty)
    decreases w, 1
  {
    match (w, r)
    case (TBool, TBool) => true
    case (TInt(a), TInt(b)) => a.signed == b.signed
    case (TFix(a), TFix(b)) => a == b
    case (TStr, TStr) => true
    case (TCustom(_, _), TCustom(_, _)) => true
    case (TSlice(a, _), TSlice(b, _)) => Compat(a, b)
    case (TMap(k, a), TMap(l, b)) => k == l && Compat(a, b)
    case (TOpt(a, e), TOpt(b, f)) => (e ==> f) && Compat(a, b)
    case (TStruct(fs), TStruct(gs)) => CompatFields(fs, gs)
    case _ => false
  }

  /** A tag the writer may send and the reader knows must carry the same kind of value. */
  ghost predicate CompatFields(ws: seq<Field>, rs: seq<Field>)
    decreases ws, 2
  {
    forall i :: 0 <= i < |ws| && ws[i].state != Deprecated && Find(rs, ws[i].tag).Some? ==>
      CompatField(ws[i], rs[Find(rs, ws[i].tag).value])
  }

  ghost predicate CompatField(w: Field, r: Field)
    decreases w, 0
  {
    w.idRef == r.idRef && Compat(w.ty, r.ty)
  }

  /** The reader's view of the writer's value. */
  ghost function Convert(w: Ty, r: Ty, v: Val): Result<Val>
    decreases v, 1
  {
    match (w, r, v)
    case (TInt(_), TInt(x), VInt(i)) =>
      if InWidth(i, x.wire, x.signed) then Ok(v) else Err(IntegerOverflow)
    case (TSlice(a, _), TSlice(b, size), VSlice(es)) =>
      if |es| > 0 && OverBudget(|es|, size) then Err(AllocTooLarge) else
      var out :- ConvertElems(a, b, es);
      Ok(VSlice(out))
    case (TMap(_, a), TMap(_, b), VMap(m)) =>
      var out :- ConvertEntries(a, b, v, Sorted(m.Keys), map[]);
      Ok(VMap(out))
    case (TOpt(a, _), TOpt(b, _), VSome(x)) =>
      var out :- Convert(a, b, x);
      Ok(VSome(out))
    case (TStruct(fs), TStruct(gs), VStruct(live, vs)) =>
      var (l, out) :- ConvertFields(fs, gs, live, vs, {}, ZeroFields(gs));
      Ok(VStruct(l, out))
    case _ => Ok(v)
  }

  ghost function ConvertElems(w: Ty, r: Ty, es: seq<Val>): (out: Result<seq<Val>>)
    ensures out.Ok? ==> |out.value| == |es|
    decreases es, 0
  {
    if |es| == 0 then Ok([]) else
    var a :- Convert(w, r, es[0]);
    var b :- ConvertElems(w, r, es[1..]);
    Ok([a] + b)
  }

  ghost function ConvertEntries(w: Ty, r: Ty, v: Val, ks: seq<Key>, acc: map<Key, Val>): Result<map<Key, Val>>
    requires v.VMap?
    decreases v, 0, |ks|
  {
    if |ks| == 0 then Ok(acc)
    else if ks[0] !in v.entries then ConvertEntries(w, r, v, ks[1..], acc)
    else
      var x :- Convert(w, r, v.entries[ks[0]]);
      ConvertEntries(w, r, v, ks[1..], acc[ks[0] := x])
  }

  /** The writer's fields, one by one, over what the reader holds. */
  ghost function ConvertFields(ws: seq<Field>, rs: seq<Field>, live: set<nat>, vs: seq<Val>, l: set<nat>,
                               acc: seq<Val>):
    (out: Result<(set<nat>, seq<Val>)>)
    requires |acc| == |rs|
    ensures out.Ok? ==> |out.value.1| == |rs|
    decreases vs, 0
  {
    if |ws| == 0 || |vs| == 0 then Ok((l, acc)) else
    match (if Written(ws[0], live, vs[0]) then Find(rs, ws[0].tag) else None)
    case None => ConvertFields(ws[1..], rs, live, vs[1..], l, acc)
    case Some(j) =>
      var x :- ConvertField(ws[0], rs[j], vs[0]);
      ConvertFields(ws[1..], rs, live, vs[1..], l + rs[j].hops, acc[j := x])
  }

  ghost function ConvertField(w: Field, r: Field, v: Val): Result<Val>
    decreases v, 2
  {
    if w.idRef && v.VSome? then
      var x :- Convert(w.ty, r.ty, v.target);
      Ok(VSome(x))
    else Convert(w.ty, r.ty, v)
  }

  /** A parser's answer that used n bytes. */
  function Sized<T>(r: Result<T>, n: nat): Result<(T, nat)> {
    match r
    case Ok(x) => Ok((x, n))
    case Err(e) => Err(e)
  }

  lemma {:induction false} WidthBound(i: int, t: IntTy)
    requires GoodInt(t) && InWidth(i, t.wire, t.signed)
    ensures (if t.signed then Zigzag(i) else i) < TWO_64
  {
  }

  lemma {:induction false} IntBack(i: int, t: IntTy, rest: seq<byte>)
    requires GoodInt(t) && InWidth(i, t.wire, t.signed)
    ensures var u := if t.signed then Zigzag(i) else i;
            && IntBytes(i, t.signed) == Uvarint(u)
            && ReadUvarint(IntBytes(i, t.signed) + rest) == Ok((u, |IntBytes(i, t.signed)|))
            && (t.signed ==> Unzigzag(u) == i)
  {
    WidthBound(i, t);
    var u := if t.signed then Zigzag(i) else i;
    ReadBack(u, rest);
    ZigzagBijective(i, u);
  }

  lemma {:induction false} ReadsInt(w: IntTy, r: IntTy, i: int, rest: seq<byte>)
    requires GoodInt(w) && GoodInt(r) && w.signed == r.signed && InWidth(i, w.wire, w.signed)
    ensures DecInt(r, IntBytes(i, w.signed) + rest) ==
            if InWidth(i, r.wire, r.signed) then Ok((i, |IntBytes(i, w.signed)|)) else Err(IntegerOverflow)
  {
    IntBack(i, w, rest);
  }

  lemma {:induction false} BoolBack(b: bool, rest: seq<byte>)
    ensures DecBool([if b then 1 else 0] + rest) == Ok((b, 1))
  {
    var u := if b then 1 else 0;
    assert Uvarint(u) == [u];
    ReadBack(u, rest);
  }

  lemma {:induction false} ReadsKey(kt: KeyTy, k: Key, rest: seq<byte>)
    requires KeyHas(kt, k) && KeyFits(kt, k) && (kt.KInt? ==> GoodInt(kt.num))
    ensures DecKey(kt, EncKey(kt, k) + rest) == Ok((k, |EncKey(kt, k)|))
  {
    match kt
    case KBool => BoolBack(k.b, rest);
    case KInt(x) => ReadsInt(x, x, k.i, rest);
    case KStr => DelimBack(k.s, rest);
  }

  /** Every value takes at least a byte, so the count in front of a slice or map never exceeds the bytes behind it. */
  lemma {:induction false} EncNonEmpty(t: Ty, v: Val)
    requires GoodTy(t) && Has(t, v) && CanEnc(t, v)
    ensures |Enc(t, v)| >= 1
  {
    if t.TFix? {
      LittleEndianLength(t.width, v.bits);
    }
  }

  ghost predicate Sendable(t: Ty, v: Val) { GoodTy(t) && Has(t, v) && CanEnc(t, v) }

  ghost predicate AllSendable(t: Ty, es: seq<Val>) { forall i :: 0 <= i < |es| ==> Sendable(t, es[i]) }

  lemma {:induction false} CountBound(t: Ty, es: seq<Val>)
    requires AllSendable(t, es)
    ensures |es| <= |EncElems(t, es)|
    decreases |es|
  {
    if |es| > 0 {
      EncNonEmpty(t, es[0]);
      CountBound(t, es[1..]);
    }
  }

  ghost predicate EntriesSendable(kt: KeyTy, vt: Ty, v: Val, ks: seq<Key>) {
    && v.VMap? && GoodTy(vt) && (kt.KInt? ==> GoodInt(kt.num))
    && forall k :: k in ks ==> k in v.entries && KeyHas(kt, k) && KeyFits(kt, k) && Sendable(vt, v.entries[k])
  }

  lemma {:induction false} EntriesBound(kt: KeyTy, vt: Ty, v: Val, ks: seq<Key>)
    requires EntriesSendable(kt, vt, v, ks)
    ensures |ks| <= |EncEntries(kt, vt, v, ks)|
    decreases |ks|
  {
    if |ks| > 0 {
      EncNonEmpty(vt, v.entries[ks[0]]);
      EntriesBound(kt, vt, v, ks[1..]);
    }
  }

  /** The wire type of a value tells SkipField exactly how many bytes to pass over. */
  lemma {:induction false} SkipExact(t: Ty, v: Val, rest: seq<byte>)
    requires Sendable(t, v) && |Enc(t, v)| < TWO_64
    ensures SkipAt(Enc(t, v) + rest, WireOf(t)) == Ok(|Enc(t, v)|)
  {
    match t
    case TBool => BoolBack(v.b, rest);
    case TInt(x) => IntBack(v.i, x, rest);
    case TFix(width) => LittleEndianLength(width, v.bits);
    case _ => DelimitedSkip(t, v, rest);
  }

  ghost function Body(t: Ty, v: Val): seq<byte> {
    match (t, v)
    case (TStr, VStr(s)) => s
    case (TCustom(_, _), VStr(s)) => s
    case (TSlice(elem, _), VSlice(es)) => Uvarint(|es|) + EncElems(elem, es)
    case (TMap(kt, vt), VMap(m)) => Uvarint(|m|) + EncEntries(kt, vt, v, Sorted(m.Keys))
    case (TOpt(_, _), VNil) => [PresenceByte(Nil)]
    case (TOpt(target, elide), VSome(x)) =>
      if elide && IsZero(x) then [PresenceByte(PresenceState.Zero)] else [PresenceByte(NonZero)] + Inline(target, x)
    case (TStruct(fs), VStruct(live, vs)) => EncFields(fs, live, vs)
    case _ => []
  }

  lemma {:induction false} Delimited(t: Ty, v: Val)
    requires Has(t, v) && CanEnc(t, v) && WireOf(t) == LENGTH_DELIM
    ensures Enc(t, v) == Delim(Body(t, v)) && |Body(t, v)| < |Enc(t, v)|
  {
  }

  lemma {:induction false} DelimitedSkip(t: Ty, v: Val, rest: seq<byte>)
    requires Has(t, v) && CanEnc(t, v) && WireOf(t) == LENGTH_DELIM && |Enc(t, v)| < TWO_64
    ensures DelimAt(Enc(t, v) + rest) == Ok((Body(t, v), |Enc(t, v)|))
    ensures SkipAt(Enc(t, v) + rest, LENGTH_DELIM) == Ok(|Enc(t, v)|)
  {
    Delimited(t, v);
    DelimBack(Body(t, v), rest);
  }

  /** The theorem: what a reader of type r makes of the bytes a writer of type w put in front of it. */
  lemma {:induction false} ReadsVal(w: Ty, r: Ty, v: Val, rest: seq<byte>)
    requires Sendable(w, v) && GoodTy(r) && Compat(w, r) && |Enc(w, v)| < TWO_64
    ensures DecVal(r, Enc(w, v) + rest, Schema.Zero(r)) == Sized(Convert(w, r, v), |Enc(w, v)|)
    decreases v, 1
  {
    hide DelimAt, FixedAt, ReadUvarint, DecElems, DecEntries, DecFields;
    match w
    case TBool => BoolBack(v.b, rest);
    case TInt(x) => ReadsInt(x, r.num, v.i, rest);
    case TFix(width) =>
      LittleEndianLength(width, v.bits);
      FixedBack(width, v.bits, rest);
    case TStr => DelimBack(v.s, rest);
    case TCustom(_, _) => DelimBack(v.s, rest);
    case TSlice(_, _) => ReadsSlice(w, r, v, rest);
    case TMap(_, _) => ReadsMap(w, r, v, rest);
    case TOpt(_, _) => ReadsOpt(w, r, v, rest);
    case TStruct(_) => ReadsStruct(w, r, v, rest);
  }

  lemma {:induction false} ReadsSlice(w: Ty, r: Ty, v: Val, rest: seq<byte>)
    requires w.TSlice? && Sendable(w, v) && GoodTy(r) && Compat(w, r) && |Enc(w, v)| < TWO_64
    ensures DecVal(r, Enc(w, v) + rest, Schema.Zero(r)) == Sized(Convert(w, r, v), |Enc(w, v)|)
    decreases v, 0
  {
    hide DecElems, ConvertElems, EncElems, DelimAt, CountAt;
    var es, head, tail := v.elems, Uvarint(|v.elems|), EncElems(w.elem, v.elems);
    DelimitedSkip(w, v, rest);
    CountBound(w.elem, es);
    CountBack(|es|, tail);
    ReadsElems(w.elem, r.elem, es, []);
    assert tail + [] == tail && (head + tail)[|head|..] == tail;
    if |es| == 0 {
      assert v.elems == [];
    }
  }

  lemma {:induction false} ReadsElems(w: Ty, r: Ty, es: seq<Val>, rest: seq<byte>)
    requires AllSendable(w, es) && GoodTy(r) && Compat(w, r) && |EncElems(w, es)| < TWO_64
    ensures DecElems(r, |es|, EncElems(w, es) + rest) == Sized(ConvertElems(w, r, es), |EncElems(w, es)|)
    decreases es, 0
  {
    hide DecElems, EncElems, ConvertElems, AllSendable, Sendable, DecVal, Enc, Convert, GoodTy, Compat;
    if |es| == 0 {
      assert es == [];
      NoElems(w, r, rest);
    } else {
      ElemsSplit(w, es);
      ReadsVal(w, r, es[0], EncElems(w, es[1..]) + rest);
      ReadsElems(w, r, es[1..], rest);
      ElemsJoin(w, r, es, Enc(w, es[0]), EncElems(w, es[1..]), rest);
    }
  }

  lemma {:induction false} NoElems(w: Ty, r: Ty, rest: seq<byte>)
    ensures DecElems(r, 0, EncElems(w, []) + rest) == Sized(ConvertElems(w, r, []), |EncElems(w, [])|)
  {
  }

  lemma {:induction false} ElemsSplit(w: Ty, es: seq<Val>)
    requires AllSendable(w, es) && |es| > 0
    ensures Sendable(w, es[0]) && AllSendable(w, es[1..])
    ensures EncElems(w, es) == Enc(w, es[0]) + EncElems(w, es[1..])
  {
    hide Sendable;
  }

  /** The first element and the others make up the whole. */
  lemma {:induction false} ElemsJoin(w: Ty, r: Ty, es: seq<Val>, a: seq<byte>, b: seq<byte>, rest: seq<byte>)
    requires |es| > 0 && DecVal(r, a + (b + rest), Schema.Zero(r)) == Sized(Convert(w, r, es[0]), |a|)
    requires DecElems(r, |es[1..]|, b + rest) == Sized(ConvertElems(w, r, es[1..]), |b|)
    ensures DecElems(r, |es|, a + b + rest) == Sized(ConvertElems(w, r, es), |a + b|)
  {
    hide DecVal, Convert, DecElems;
    AppendAssoc(a, b, rest);
    Pieces(a, b + rest);
    ElemStep(r, |es|, a + (b + rest), |a|, Convert(w, r, es[0]));
  }

  /** One turn of the element loop, given what the element is. */
  lemma {:induction false} ElemStep(t: Ty, count: nat, s: seq<byte>, n: nat, x: Result<Val>)
    requires count > 0 && n <= |s| && DecVal(t, s, Schema.Zero(t)) == Sized(x, n)
    ensures DecElems(t, count, s) ==
            match x
            case Err(e) => Err(e)
            case Ok(v) =>
              match DecElems(t, count - 1, s[n..])
              case Err(e) => Err(e)
              case Ok((vs, m)) => Ok(([v] + vs, n + m))
  {
    hide DecVal;
  }

  lemma {:induction false} ReadsMap(w: Ty, r: Ty, v: Val, rest: seq<byte>)
    requires w.TMap? && Sendable(w, v) && GoodTy(r) && Compat(w, r) && |Enc(w, v)| < TWO_64
    ensures DecVal(r, Enc(w, v) + rest, Schema.Zero(r)) == Sized(Convert(w, r, v), |Enc(w, v)|)
    decreases v, 0, |v.entries| + 1
  {
    hide DecEntries, ConvertEntries, EncEntries, DelimAt, CountAt, Sorted;
    var ks := Sorted(v.entries.Keys);
    SortedLists(v.entries.Keys);
    var head, tail := Uvarint(|ks|), EncEntries(w.key, w.val, v, ks);
    DelimitedSkip(w, v, rest);
    EntriesBound(w.key, w.val, v, ks);
    CountBack(|ks|, tail);
    ReadsEntries(w.key, w.val, r.val, v, ks, map[], []);
    assert tail + [] == tail && (head + tail)[|head|..] == tail;
  }

  lemma {:induction false} ReadsEntries(kt: KeyTy, w: Ty, r: Ty, v: Val, ks: seq<Key>, acc: map<Key, Val>,
                                        rest: seq<byte>)
    requires EntriesSendable(kt, w, v, ks) && GoodTy(r) && Compat(w, r) && |EncEntries(kt, w, v, ks)| < TWO_64
    ensures DecEntries(kt, r, |ks|, EncEntries(kt, w, v, ks) + rest, acc)
            == Sized(ConvertEntries(w, r, v, ks, acc), |EncEntries(kt, w, v, ks)|)
    decreases v, 0, |ks|
  {
    hide DecEntries, EncEntries, ConvertEntries, EntriesSendable, Sendable, DecVal, DecKey, Enc, EncKey, Convert,
        GoodTy, Compat, KeyHas, KeyFits;
    if |ks| == 0 {
      NoEntries(kt, w, r, v, ks, acc, rest);
    } else {
      EntriesSplit(kt, w, v, ks);
      var x, b := v.entries[ks[0]], EncEntries(kt, w, v, ks[1..]);
      ReadsKey(kt, ks[0], Enc(w, x) + (b + rest));
      ReadsVal(w, r, x, b + rest);
      if Convert(w, r, x).Ok? {
        ReadsEntries(kt, w, r, v, ks[1..], acc[ks[0] := Convert(w, r, x).value], rest);
      }
      EntriesJoin(kt, w, r, v, ks, acc, EncKey(kt, ks[0]), Enc(w, x), b, rest);
    }
  }

  lemma {:induction false} NoEntries(kt: KeyTy, w: Ty, r: Ty, v: Val, ks: seq<Key>, acc: map<Key, Val>, rest: seq<byte>)
    requires EntriesSendable(kt, w, v, ks) && |ks| == 0
    ensures DecEntries(kt, r, 0, EncEntries(kt, w, v, ks) + rest, acc)
            == Sized(ConvertEntries(w, r, v, ks, acc), |EncEntries(kt, w, v, ks)|)
  {
  }

  lemma {:induction false} EntriesSplit(kt: KeyTy, w: Ty, v: Val, ks: seq<Key>)
    requires EntriesSendable(kt, w, v, ks) && |ks| > 0
    ensures v.VMap? && ks[0] in v.entries && KeyHas(kt, ks[0]) && KeyFits(kt, ks[0]) && (kt.KInt? ==> GoodInt(kt.num))
    ensures Sendable(w, v.entries[ks[0]]) && EntriesSendable(kt, w, v, ks[1..])
    ensures EncEntries(kt, w, v, ks) == EncKey(kt, ks[0]) + Enc(w, v.entries[ks[0]]) + EncEntries(kt, w, v, ks[1..])
  {
    hide Sendable, KeyHas, KeyFits;
  }

  /** The first entry and the others make up the whole. */
  lemma {:induction false} EntriesJoin(kt: KeyTy, w: Ty, r: Ty, v: Val, ks: seq<Key>, acc: map<Key, Val>,
                                       k: seq<byte>, a: seq<byte>, b: seq<byte>, rest: seq<byte>)
    requires v.VMap? && |ks| > 0 && ks[0] in v.entries && DecKey(kt, k + (a + (b + rest))) == Ok((ks[0], |k|))
    requires DecVal(r, a + (b + rest), Schema.Zero(r)) == Sized(Convert(w, r, v.entries[ks[0]]), |a|)
    requires var x := Convert(w, r, v.entries[ks[0]]);
             x.Ok? ==> DecEntries(kt, r, |ks[1..]|, b + rest, acc[ks[0] := x.value])
                       == Sized(ConvertEntries(w, r, v, ks[1..], acc[ks[0] := x.value]), |b|)
    ensures DecEntries(kt, r, |ks|, k + a + b + rest, acc) == Sized(ConvertEntries(w, r, v, ks, acc), |k + a + b|)
  {
    hide DecVal, DecKey, Convert, DecEntries;
    EntryBytes(k, a, b, rest);
    ThreePieces(k, a, b + rest);
    EntryStep(kt, r, |ks|, k + (a + (b + rest)), |k|, |a|, acc, ks[0], Convert(w, r, v.entries[ks[0]]));
  }

  /** One turn of the entry loop, given what the key and the value are. */
  lemma {:induction false} EntryStep(kt: KeyTy, t: Ty, count: nat, s: seq<byte>, a: nat, b: nat, acc: map<Key, Val>,
                                     k: Key, x: Result<Val>)
    requires count > 0 && DecKey(kt, s) == Ok((k, a)) && a + b <= |s|
    requires DecVal(t, s[a..], Schema.Zero(t)) == Sized(x, b)
    ensures DecEntries(kt, t, count, s, acc) ==
            match x
            case Err(e) => Err(e)
            case Ok(v) =>
              match DecEntries(kt, t, count - 1, s[a + b..], acc[k := v])
              case Err(e) => Err(e)
              case Ok((m, n)) => Ok((m, a + b + n))
  {
    hide DecVal, DecKey;
  }

  lemma {:induction false} EntryBytes<T>(k: seq<T>, a: seq<T>, b: seq<T>, c: seq<T>)
    ensures k + a + b + c == k + (a + (b + c))
  {
  }

  lemma {:induction false} Pieces<T>(a: seq<T>, b: seq<T>)
    ensures (a + b)[|a|..] == b
  {
  }

  lemma {:induction false} ThreePieces<T>(a: seq<T>, b: seq<T>, c: seq<T>)
    ensures var s := a + (b + c); s == a + b + c && s[|a|..] == b + c && s[|a| + |b|..] == c
  {
  }

  lemma {:induction false} ReadsOpt(w: Ty, r: Ty, v: Val, rest: seq<byte>)
    requires w.TOpt? && Sendable(w, v) && GoodTy(r) && Compat(w, r) && |Enc(w, v)| < TWO_64
    ensures DecVal(r, Enc(w, v) + rest, Schema.Zero(r)) == Sized(Convert(w, r, v), |Enc(w, v)|)
    decreases v, 0
  {
    hide DecInline, Inline, DelimAt, Enc;
    DelimitedSkip(w, v, rest);
    if v.VSome? {
      if w.elide && IsZero(v.target) {
        assert Body(w, v) == [3];
        ElidedZero(w.target, r.target, v.target);
      } else {
        var x := Inline(w.target, v.target);
        assert Body(w, v) == [1] + x && Body(w, v)[1..] == x;
        ReadsInline(w.target, r.target, v.target);
      }
    }
  }

  /** What an elided zero stands for on either side. */
  lemma {:induction false} ElidedZero(w: Ty, r: Ty, x: Val)
    requires IsZero(x) && Has(w, x) && Compat(w, r) && GoodTy(r) && (w.TBool? || w.TInt? || w.TStr?)
    ensures Convert(w, r, x) == Ok(Schema.Zero(r))
  {
  }

  lemma {:induction false} ReadsInline(w: Ty, r: Ty, v: Val)
    requires Sendable(w, v) && GoodTy(r) && Compat(w, r) && |Inline(w, v)| < TWO_64
    ensures DecInline(r, Inline(w, v)) == Sized(Convert(w, r, v), |Inline(w, v)|)
    decreases v, 2
  {
    if w.TStruct? {
      ReadsFields(w.fields, r.fields, v.live, v.vals, {}, ZeroFields(r.fields));
    } else {
      ReadsVal(w, r, v, []);
      assert Enc(w, v) + [] == Enc(w, v);
    }
  }

  lemma {:induction false} ReadsStruct(w: Ty, r: Ty, v: Val, rest: seq<byte>)
    requires w.TStruct? && Sendable(w, v) && GoodTy(r) && Compat(w, r) && |Enc(w, v)| < TWO_64
    ensures DecVal(r, Enc(w, v) + rest, Schema.Zero(r)) == Sized(Convert(w, r, v), |Enc(w, v)|)
    decreases v, 0
  {
    DelimitedSkip(w, v, rest);
    ReadsFields(w.fields, r.fields, v.live, v.vals, {}, ZeroFields(r.fields));
  }

  /** The writer's fields can be sent, and their tags differ. */
  ghost predicate FieldsSendable(ws: seq<Field>, live: set<nat>, vs: seq<Val>) {
    && |ws| == |vs| && GoodFields(ws)
    && forall i :: 0 <= i < |ws| ==>
      HasField(ws[i], live, vs[i]) && (Written(ws[i], live, vs[i]) ==> CanEncField(ws[i], vs[i]))
  }

  /** Nothing of what is still to come has been read yet. */
  ghost predicate Unread(ws: seq<Field>, rs: seq<Field>, acc: seq<Val>) {
    && |acc| == |rs|
    && forall i :: 0 <= i < |ws| && Find(rs, ws[i].tag).Some? ==>
      acc[Find(rs, ws[i].tag).value] == ZeroField(rs[Find(rs, ws[i].tag).value])
  }

  lemma {:induction false} TailFields(ws: seq<Field>, rs: seq<Field>, live: set<nat>, vs: seq<Val>)
    requires |ws| > 0 && FieldsSendable(ws, live, vs) && CompatFields(ws, rs)
    ensures FieldsSendable(ws[1..], live, vs[1..]) && CompatFields(ws[1..], rs)
  {
    var t := ws[1..];
    assert forall i :: 0 <= i < |t| ==> t[i] == ws[i + 1] && vs[1..][i] == vs[i + 1];
  }

  lemma {:induction false} TailUnread(ws: seq<Field>, rs: seq<Field>, acc: seq<Val>, x: Val)
    requires |ws| > 0 && DistinctTags(ws) && Unread(ws, rs, acc)
    ensures Unread(ws[1..], rs, acc)
    ensures Find(rs, ws[0].tag).Some? ==> Unread(ws[1..], rs, acc[Find(rs, ws[0].tag).value := x])
  {
    var t := ws[1..];
    forall i | 0 <= i < |t| ensures t[i] == ws[i + 1] && t[i].tag != ws[0].tag {
    }
  }

  lemma {:induction false} ReadsFields(ws: seq<Field>, rs: seq<Field>, live: set<nat>, vs: seq<Val>, l: set<nat>,
                                       acc: seq<Val>)
    requires FieldsSendable(ws, live, vs) && GoodFields(rs) && CompatFields(ws, rs) && Unread(ws, rs, acc)
    requires |EncFields(ws, live, vs)| < TWO_64
    ensures DecFields(rs, EncFields(ws, live, vs), l, acc) == ConvertFields(ws, rs, live, vs, l, acc)
    decreases vs, 0
  {
    hide TagAt, SkipAt, DecField, Enc, Convert, Has, CanEnc, GoodTy, Compat, GoodField;
    if |ws| > 0 {
      var f, v, rest := ws[0], vs[0], EncFields(ws[1..], live, vs[1..]);
      TailFields(ws, rs, live, vs);
      if !Written(f, live, v) {
        TailUnread(ws, rs, acc, v);
        assert [] + rest == rest;
        ReadsFields(ws[1..], rs, live, vs[1..], l, acc);
      } else {
        var k, p := FieldKey(f), Payload(f, v);
        FieldReady(ws, live, vs, 0);
        ThreePieces(k, p, rest);
        TagBack(f.tag, WireOf(f.ty), p + rest);
        match Find(rs, f.tag)
        case None =>
          SkipExact(f.ty, Sent(f, v), rest);
          SkipStep(rs, f.tag, WireOf(f.ty), k + (p + rest), |k|, |p|, l, acc);
          TailUnread(ws, rs, acc, v);
          ReadsFields(ws[1..], rs, live, vs[1..], l, acc);
        case Some(j) =>
          var x := ConvertField(f, rs[j], v);
          ReadsField(f, rs[j], v, rest);
          FieldStep(rs, f.tag, j, k + (p + rest), |k|, |p|, l, acc, x);
          if x.Ok? {
            TailUnread(ws, rs, acc, x.value);
            ReadsFields(ws[1..], rs, live, vs[1..], l + rs[j].hops, acc[j := x.value]);
          }
      }
    }
  }

  /** The value whose bytes are a written field's payload. */
  function Sent(f: Field, v: Val): Val { if f.idRef && v.VSome? then v.target else v }

  lemma {:induction false} FieldReady(ws: seq<Field>, live: set<nat>, vs: seq<Val>, i: nat)
    requires i < |ws| && FieldsSendable(ws, live, vs) && Written(ws[i], live, vs[i])
    ensures var f, v := ws[i], vs[i];
            && GoodField(f) && TagError(f.tag, WireOf(f.ty)) == None && (f.idRef ==> v.VSome?)
            && Sendable(f.ty, Sent(f, v)) && Payload(f, v) == Enc(f.ty, Sent(f, v))
  {
    assert HasField(ws[i], live, vs[i]) && CanEncField(ws[i], vs[i]) && GoodField(ws[i]);
  }

  lemma {:induction false} StructParts(w: Ty, v: Val)
    requires w.TStruct? && Sendable(w, v)
    ensures v.VStruct? && FieldsSendable(w.fields, v.live, v.vals)
  {
  }

  lemma {:induction false} SameWire(w: Ty, r: Ty)
    requires Compat(w, r)
    ensures WireOf(w) == WireOf(r)
  {
  }

  /** One turn of the decode loop over a tag the reader does not know. */
  lemma {:induction false} SkipStep(rs: seq<Field>, tag: nat, wire: nat, s: seq<byte>, n: nat, k: nat, l: set<nat>,
                                    acc: seq<Val>)
    requires |acc| == |rs| && Find(rs, tag).None?
    requires TagAt(s) == Ok(((tag, wire), n)) && SkipAt(s[n..], wire) == Ok(k)
    ensures DecFields(rs, s, l, acc) == DecFields(rs, s[n + k..], l, acc)
  {
    hide TagAt, SkipAt, Find, DecField;
  }

  /** One turn over a known tag, given what the field is. */
  lemma {:induction false} FieldStep(rs: seq<Field>, tag: nat, j: nat, s: seq<byte>, n: nat, k: nat, l: set<nat>,
                                     acc: seq<Val>, x: Result<Val>)
    requires |acc| == |rs| && Find(rs, tag) == Some(j) && n + k <= |s|
    requires TagAt(s) == Ok(((tag, WireOf(rs[j].ty)), n)) && DecField(rs[j], s[n..], acc[j]) == Sized(x, k)
    ensures DecFields(rs, s, l, acc) ==
            match x
            case Err(e) => Err(e)
            case Ok(v) => DecFields(rs, s[n + k..], l + rs[j].hops, acc[j := v])
  {
    hide TagAt, SkipAt, DecField;
  }

  lemma {:induction false} ReadsField(w: Field, r: Field, v: Val, rest: seq<byte>)
    requires GoodField(w) && GoodField(r) && CompatField(w, r)
    requires (w.idRef ==> v.VSome?) && Sendable(w.ty, Sent(w, v)) && |Payload(w, v)| < TWO_64
    ensures WireOf(w.ty) == WireOf(r.ty)
    ensures DecField(r, Payload(w, v) + rest, ZeroField(r)) == Sized(ConvertField(w, r, v), |Payload(w, v)|)
    decreases v, 2
  {
    SameWire(w.ty, r.ty);
    if w.idRef {
      ReadsVal(w.ty, r.ty, v.target, rest);
    } else {
      ReadsVal(w.ty, r.ty, v, rest);
    }
  }
}
