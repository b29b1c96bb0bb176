/** What Convert comes to: field by field, element by element; when it gives the value back; when it can fail. */
module RoundTrip {
  import opened Basics
  import opened Wire
  import opened Schema
  import opened Generated
  import opened Evolution

  lemma {:induction false} ElemsPointwise(w: Ty, r: Ty, es: seq<Val>)
    ensures match ConvertElems(w, r, es)
            case Ok(out) => forall i :: 0 <= i < |es| ==> Convert(w, r, es[i]) == Ok(out[i])
            case Err(e) => exists i :: 0 <= i < |es| && Convert(w, r, es[i]) == Err(e)
    decreases |es|
  {
    hide Convert;
    if |es| > 0 {
      var t := es[1..];
      ElemsPointwise(w, r, t);
      assert forall i :: 0 <= i < |t| ==> t[i] == es[i + 1];
      match ConvertElems(w, r, es)
      case Ok(out) =>
      case Err(e) =>
        if Convert(w, r, es[0]).Ok? {
          var i :| 0 <= i < |t| && Convert(w, r, t[i]) == Err(e);
          assert Convert(w, r, es[i + 1]) == Err(e);
        }
    }
  }

  lemma {:induction false} EntriesPointwise(w: Ty, r: Ty, v: Val, ks: seq<Key>, acc: map<Key, Val>)
    requires v.VMap? && forall k :: k in ks ==> k in v.entries
    ensures match ConvertEntries(w, r, v, ks, acc)
            case Ok(out) =>
              && (forall k :: k in out <==> k in acc || k in ks)
              && (forall k :: k in ks ==> Convert(w, r, v.entries[k]) == Ok(out[k]))
              && (forall k :: k in acc && k !in ks ==> out[k] == acc[k])
            case Err(e) => exists k :: k in ks && Convert(w, r, v.entries[k]) == Err(e)
    decreases |ks|
  {
    hide Convert;
    if |ks| > 0 {
      var k0, t := ks[0], ks[1..];
      var x := Convert(w, r, v.entries[k0]);
      assert forall k :: k in ks <==> k == k0 || k in t;
      if x.Ok? {
        EntriesPointwise(w, r, v, t, acc[k0 := x.value]);
      }
    }
  }

  /** The writer's field a reader's tag is filled from. */
  ghost function Source(ws: seq<Field>, live: set<nat>, vs: seq<Val>, tag: nat): (r: Option<nat>)
    requires |vs| == |ws|
    ensures r.Some? ==> r.value < |ws| && ws[r.value].tag == tag && Written(ws[r.value], live, vs[r.value])
  {
    match Find(ws, tag)
    case None => None
    case Some(i) => if Written(ws[i], live, vs[i]) then Some(i) else None
  }

  lemma {:induction false} SourceTail(ws: seq<Field>, live: set<nat>, vs: seq<Val>, tag: nat)
    requires |vs| == |ws| > 0
    ensures Source(ws, live, vs, tag) ==
            if ws[0].tag == tag then (if Written(ws[0], live, vs[0]) then Some(0) else None)
            else match Source(ws[1..], live, vs[1..], tag)
              case None => None
              case Some(i) => Some(i + 1)
  {
  }

  lemma {:induction false} NoSource(ws: seq<Field>, live: set<nat>, vs: seq<Val>, tag: nat)
    requires |vs| == |ws| && forall i :: 0 <= i < |ws| ==> ws[i].tag != tag
    ensures Source(ws, live, vs, tag) == None
  {
  }

  /** One field of the reader after conversion: the writer's value under the same tag, or what was there. */
  ghost predicate Filled(ws: seq<Field>, live: set<nat>, vs: seq<Val>, r: Field, before: Val, after: Val)
    requires |vs| == |ws|
  {
    match Source(ws, live, vs, r.tag)
    case None => after == before
    case Some(i) => ConvertField(ws[i], r, vs[i]) == Ok(after)
  }

  /** The embedded pointers a reader has to allocate. */
  ghost function Reached(ws: seq<Field>, rs: seq<Field>, live: set<nat>, vs: seq<Val>): set<nat>
    requires |vs| == |ws|
  {
    set j, h | 0 <= j < |rs| && Source(ws, live, vs, rs[j].tag).Some? && h in rs[j].hops :: h
  }

  lemma {:induction false} ReachedStep(ws: seq<Field>, rs: seq<Field>, live: set<nat>, vs: seq<Val>)
    requires |vs| == |ws| > 0 && DistinctTags(ws) && DistinctTags(rs)
    ensures Reached(ws, rs, live, vs) == Reached(ws[1..], rs, live, vs[1..]) +
            if Written(ws[0], live, vs[0]) && Find(rs, ws[0].tag).Some? then rs[Find(rs, ws[0].tag).value].hops else {}
  {
    var t := ws[1..];
    assert forall i :: 0 <= i < |t| ==> t[i].tag != ws[0].tag;
    NoSource(t, live, vs[1..], ws[0].tag);
    forall j | 0 <= j < |rs| ensures
      Source(ws, live, vs, rs[j].tag).Some? <==>
      Source(t, live, vs[1..], rs[j].tag).Some? || (Written(ws[0], live, vs[0]) && rs[j].tag == ws[0].tag)
    {
      SourceTail(ws, live, vs, rs[j].tag);
    }
    forall j | 0 <= j < |rs| && rs[j].tag == ws[0].tag ensures Find(rs, ws[0].tag) == Some(j) {
    }
  }

  /** Struct conversion, field by field, in both directions: it succeeds exactly when every shared field does. */
  lemma {:induction false} FieldsPointwise(ws: seq<Field>, rs: seq<Field>, live: set<nat>, vs: seq<Val>, l: set<nat>,
                                           acc: seq<Val>)
    requires |vs| == |ws| && |acc| == |rs| && DistinctTags(ws) && DistinctTags(rs)
    ensures match ConvertFields(ws, rs, live, vs, l, acc)
            case Ok((reach, out)) =>
              && reach == l + Reached(ws, rs, live, vs)
              && forall j :: 0 <= j < |rs| ==> Filled(ws, live, vs, rs[j], acc[j], out[j])
            case Err(e) => exists j :: 0 <= j < |rs| && Refused(ws, live, vs, rs[j], e)
    decreases |ws|
  {
    hide Convert, ConvertField;
    if |ws| == 0 {
      assert Reached(ws, rs, live, vs) == {};
    } else {
      hide Source, Reached, Written, Find;
      var t, u := ws[1..], vs[1..];
      assert forall i, j :: 0 <= i < j < |t| ==> t[i].tag != t[j].tag;
      ReachedStep(ws, rs, live, vs);
      OnlyOne(rs, ws[0].tag);
      match (if Written(ws[0], live, vs[0]) then Find(rs, ws[0].tag) else None)
      case None =>
        FieldsPointwise(t, rs, live, u, l, acc);
        FilledTail(ws, rs, live, vs, acc, acc, ConvertFields(t, rs, live, u, l, acc));
      case Some(j) =>
        var x := ConvertField(ws[0], rs[j], vs[0]);
        if x.Ok? {
          var acc' := acc[j := x.value];
          FieldsPointwise(t, rs, live, u, l + rs[j].hops, acc');
          FilledTail(ws, rs, live, vs, acc, acc', ConvertFields(t, rs, live, u, l + rs[j].hops, acc'));
        } else {
          assert Refused(ws, live, vs, rs[j], x.error);
        }
    }
  }

  lemma {:induction false} OnlyOne(rs: seq<Field>, tag: nat)
    requires DistinctTags(rs)
    ensures forall j :: 0 <= j < |rs| && rs[j].tag == tag ==> Find(rs, tag) == Some(j)
  {
  }

  lemma {:induction false} FilledTail(ws: seq<Field>, rs: seq<Field>, live: set<nat>, vs: seq<Val>, acc: seq<Val>,
                                      acc': seq<Val>,
                   out: Result<(set<nat>, seq<Val>)>)
    requires |vs| == |ws| > 0 && |acc| == |acc'| == |rs| && DistinctTags(ws) && (out.Ok? ==> |out.value.1| == |rs|)
    requires forall j :: 0 <= j < |rs| ==>
      if Written(ws[0], live, vs[0]) && rs[j].tag == ws[0].tag then ConvertField(ws[0], rs[j], vs[0]) == Ok(acc'[j])
      else acc'[j] == acc[j]
    ensures out.Ok? && (forall j :: 0 <= j < |rs| ==>
            Filled(ws[1..], live, vs[1..], rs[j], acc'[j], out.value.1[j])) ==>
            forall j :: 0 <= j < |rs| ==> Filled(ws, live, vs, rs[j], acc[j], out.value.1[j])
    ensures out.Err? && (exists j :: 0 <= j < |rs| && Refused(ws[1..], live, vs[1..], rs[j], out.error)) ==>
            exists j :: 0 <= j < |rs| && Refused(ws, live, vs, rs[j], out.error)
  {
    hide Convert, ConvertField, Source, Written, Find;
    var t, u := ws[1..], vs[1..];
    assert forall i :: 0 <= i < |t| ==> t[i].tag != ws[0].tag;
    NoSource(t, live, u, ws[0].tag);
    forall j | 0 <= j < |rs| ensures
      Source(ws, live, vs, rs[j].tag) ==
      if ws[0].tag == rs[j].tag then (if Written(ws[0], live, vs[0]) then Some(0) else None)
      else match Source(t, live, u, rs[j].tag)
        case None => None
        case Some(i) => Some(i + 1)
    {
      SourceTail(ws, live, vs, rs[j].tag);
    }
  }

  ghost predicate Refused(ws: seq<Field>, live: set<nat>, vs: seq<Val>, r: Field, e: Error)
    requires |vs| == |ws|
  {
    var i := Source(ws, live, vs, r.tag);
    i.Some? && ConvertField(ws[i.value], r, vs[i.value]) == Err(e)
  }

  /** Every slice a reader will allocate is within MakeSlice's budget. */
  ghost predicate InBudget(w: Ty, r: Ty, v: Val)
    decreases v, 1
  {
    match (w, r, v)
    case (TSlice(a, _), TSlice(b, size), VSlice(es)) =>
      && (|es| == 0 || !OverBudget(|es|, size))
      && forall i :: 0 <= i < |es| ==> InBudget(a, b, es[i])
    case (TMap(_, a), TMap(_, b), VMap(m)) => forall k :: k in m ==> InBudget(a, b, m[k])
    case (TOpt(a, _), TOpt(b, _), VSome(x)) => InBudget(a, b, x)
    case (TStruct(fs), TStruct(gs), VStruct(live, vs)) =>
      |vs| == |fs| ==> forall i :: 0 <= i < |fs| && Written(fs[i], live, vs[i]) && Find(gs, fs[i].tag).Some? ==>
        FieldInBudget(fs[i], gs[Find(gs, fs[i].tag).value], vs[i])
    case _ => true
  }

  ghost predicate FieldInBudget(w: Field, r: Field, v: Val)
    decreases v, 2
  {
    if w.idRef && v.VSome? then InBudget(w.ty, r.ty, v.target) else InBudget(w.ty, r.ty, v)
  }

  /** The reader promises at least the wire width of the writer, wherever both have an integer. */
  ghost predicate NoNarrowing(w: Ty, r: Ty)
    decreases w, 1
  {
    match (w, r)
    case (TInt(a), TInt(b)) => a.wire <= b.wire && GoodInt(a) && GoodInt(b)
    case (TSlice(a, _), TSlice(b, _)) => NoNarrowing(a, b)
    case (TMap(_, a), TMap(_, b)) => NoNarrowing(a, b)
    case (TOpt(a, _), TOpt(b, _)) => NoNarrowing(a, b)
    case (TStruct(fs), TStruct(gs)) =>
      forall i :: 0 <= i < |fs| && fs[i].state != Deprecated && Find(gs, fs[i].tag).Some? ==>
        FieldNotNarrowed(fs[i], gs[Find(gs, fs[i].tag).value])
    case _ => true
  }

  ghost predicate FieldNotNarrowed(w: Field, r: Field)
    decreases w, 0
  {
    NoNarrowing(w.ty, r.ty)
  }

  /** The only two ways a compatible reader refuses a valid body, and what each needs. */
  ghost predicate Excused(w: Ty, r: Ty, v: Val, e: Error) {
    (e == IntegerOverflow && !NoNarrowing(w, r)) || (e == AllocTooLarge && !InBudget(w, r, v))
  }

  lemma {:induction false} WhyRefused(w: Ty, r: Ty, v: Val)
    requires Sendable(w, v) && GoodTy(r) && Compat(w, r) && Convert(w, r, v).Err?
    ensures Excused(w, r, v, Convert(w, r, v).error)
    decreases v, 1
  {
    var e := Convert(w, r, v).error;
    match w
    case TInt(x) =>
      if x.wire <= r.num.wire {
        WidthsNest(v.i, x, r.num);
      }
    case TSlice(a, _) =>
      ElemsPointwise(a, r.elem, v.elems);
      if !(|v.elems| > 0 && OverBudget(|v.elems|, r.elemSize)) {
        var i :| 0 <= i < |v.elems| && Convert(a, r.elem, v.elems[i]) == Err(e);
        WhyRefused(a, r.elem, v.elems[i]);
      }
    case TMap(_, a) =>
      SortedLists(v.entries.Keys);
      EntriesPointwise(a, r.val, v, Sorted(v.entries.Keys), map[]);
      var k :| k in v.entries && Convert(a, r.val, v.entries[k]) == Err(e);
      WhyRefused(a, r.val, v.entries[k]);
    case TOpt(a, _) => WhyRefused(a, r.target, v.target);
    case TStruct(fs) => WhyStructRefused(w, r, v);
    case _ =>
  }

  lemma {:induction false} WidthsNest(i: int, a: IntTy, b: IntTy)
    requires GoodInt(a) && GoodInt(b) && a.signed == b.signed && a.wire <= b.wire && InWidth(i, a.wire, a.signed)
    ensures InWidth(i, b.wire, b.signed)
  {
  }

  lemma {:induction false} WhyStructRefused(w: Ty, r: Ty, v: Val)
    requires w.TStruct? && Sendable(w, v) && GoodTy(r) && Compat(w, r) && Convert(w, r, v).Err?
    ensures Excused(w, r, v, Convert(w, r, v).error)
    decreases v, 0
  {
    var fs, gs := w.fields, r.fields;
    StructParts(w, v);
    var e := ConvertFields(fs, gs, v.live, v.vals, {}, ZeroFields(gs)).error;
    assert Convert(w, r, v) == Err(e);
    hide Has, CanEnc, Convert, ConvertFields, InBudget, NoNarrowing;
    FieldsPointwise(fs, gs, v.live, v.vals, {}, ZeroFields(gs));
    var j :| 0 <= j < |gs| && Refused(fs, v.live, v.vals, gs[j], e);
    var i := Source(fs, v.live, v.vals, gs[j].tag).value;
    FieldReady(fs, v.live, v.vals, i);
    assert Find(gs, fs[i].tag) == Some(j) && GoodField(gs[j]) && CompatField(fs[i], gs[j]);
    ConvertSent(fs[i], gs[j], v.vals[i]);
    WhyRefused(fs[i].ty, gs[j].ty, Sent(fs[i], v.vals[i]));
    FieldExcuse(fs, gs, v.live, v.vals, i, j, e);
  }

  lemma {:induction false} ConvertSent(w: Field, r: Field, v: Val)
    ensures ConvertField(w, r, v).Err? ==> ConvertField(w, r, v) == Convert(w.ty, r.ty, Sent(w, v))
  {
  }

  lemma {:induction false} FieldExcuse(ws: seq<Field>, rs: seq<Field>, live: set<nat>, vs: seq<Val>, i: nat, j: nat,
                                       e: Error)
    requires |vs| == |ws| && i < |ws| && Written(ws[i], live, vs[i]) && Find(rs, ws[i].tag) == Some(j)
    requires Excused(ws[i].ty, rs[j].ty, Sent(ws[i], vs[i]), e)
    ensures Excused(TStruct(ws), TStruct(rs), VStruct(live, vs), e)
  {
    hide Find;
    assert FieldNotNarrowed(ws[i], rs[j]) <==> NoNarrowing(ws[i].ty, rs[j].ty);
    assert FieldInBudget(ws[i], rs[j], vs[i]) <==> InBudget(ws[i].ty, rs[j].ty, Sent(ws[i], vs[i]));
  }

  /** What a value must be like to come back as it was: slices within the budget, nothing but zero in fields that are
      not written, and behind every embedded pointer that is not nil a field that is. */
  ghost predicate Survives(t: Ty, v: Val)
    decreases v, 1
  {
    match (t, v)
    case (TSlice(elem, size), VSlice(es)) =>
      && (|es| == 0 || !OverBudget(|es|, size))
      && forall i :: 0 <= i < |es| ==> Survives(elem, es[i])
    case (TMap(_, vt), VMap(m)) => forall k :: k in m ==> Survives(vt, m[k])
    case (TOpt(target, _), VSome(x)) => Survives(target, x)
    case (TStruct(fs), VStruct(live, vs)) => |vs| == |fs| && FieldsSurvive(fs, live, vs)
    case _ => true
  }

  ghost predicate FieldsSurvive(fs: seq<Field>, live: set<nat>, vs: seq<Val>)
    requires |vs| == |fs|
    decreases vs, 3
  {
    && live <= Reached(fs, fs, live, vs)
    && forall i :: 0 <= i < |fs| ==>
      if Written(fs[i], live, vs[i]) then FieldSurvives(fs[i], vs[i]) else vs[i] == ZeroField(fs[i])
  }

  ghost predicate FieldSurvives(f: Field, v: Val)
    decreases v, 2
  {
    if f.idRef && v.VSome? then Survives(f.ty, v.target) else Survives(f.ty, v)
  }

  lemma {:induction false} SelfCompat(t: Ty)
    requires GoodTy(t)
    ensures Compat(t, t) && NoNarrowing(t, t)
    decreases t, 1
  {
    match t
    case TSlice(elem, _) => SelfCompat(elem);
    case TMap(_, val) => SelfCompat(val);
    case TOpt(target, _) => SelfCompat(target);
    case TStruct(fs) => SelfCompatFields(fs);
    case _ =>
  }

  lemma {:induction false} SelfCompatFields(fs: seq<Field>)
    requires GoodFields(fs)
    ensures CompatFields(fs, fs) && NoNarrowing(TStruct(fs), TStruct(fs))
    decreases fs, 2
  {
    forall i | 0 <= i < |fs| ensures Find(fs, fs[i].tag) == Some(i) && CompatField(fs[i], fs[i])
        && FieldNotNarrowed(fs[i], fs[i]) {
      OnlyOne(fs, fs[i].tag);
      SelfCompatField(fs[i]);
    }
  }

  lemma {:induction false} SelfCompatField(f: Field)
    requires GoodField(f)
    ensures CompatField(f, f) && FieldNotNarrowed(f, f)
    decreases f, 0
  {
    SelfCompat(f.ty);
  }

  /** A value is its own conversion exactly when it survives. */
  lemma {:induction false} Identity(t: Ty, v: Val)
    requires Sendable(t, v)
    ensures Convert(t, t, v) == Ok(v) <==> Survives(t, v)
    decreases v, 1
  {
    match t
    case TInt(x) => WidthsNest(v.i, x, x);
    case TSlice(_, _) => SliceIdentity(t, v);
    case TMap(_, _) => MapIdentity(t, v);
    case TOpt(target, _) =>
      if v.VSome? {
        Identity(target, v.target);
      }
    case TStruct(_) => StructIdentity(t, v);
    case _ =>
  }

  lemma {:induction false} SliceIdentity(t: Ty, v: Val)
    requires t.TSlice? && Sendable(t, v)
    ensures Convert(t, t, v) == Ok(v) <==> Survives(t, v)
    decreases v, 0
  {
    var es := v.elems;
    ElemsPointwise(t.elem, t.elem, es);
    forall i | 0 <= i < |es| ensures Convert(t.elem, t.elem, es[i]) == Ok(es[i]) <==> Survives(t.elem, es[i]) {
      Identity(t.elem, es[i]);
    }
    match ConvertElems(t.elem, t.elem, es)
    case Ok(out) =>
      assert out == es <==> forall i :: 0 <= i < |es| ==> out[i] == es[i];
    case Err(_) =>
  }

  lemma {:induction false} MapIdentity(t: Ty, v: Val)
    requires t.TMap? && Sendable(t, v)
    ensures Convert(t, t, v) == Ok(v) <==> Survives(t, v)
    decreases v, 0
  {
    hide ConvertEntries, Sorted;
    SortedLists(v.entries.Keys);
    forall k | k in v.entries ensures Convert(t.val, t.val, v.entries[k]) == Ok(v.entries[k]) <==>
        Survives(t.val, v.entries[k]) {
      Identity(t.val, v.entries[k]);
    }
    EntriesIdentity(t.val, v, Sorted(v.entries.Keys));
  }

  lemma {:induction false} EntriesIdentity(t: Ty, v: Val, ks: seq<Key>)
    requires v.VMap? && forall k :: k in ks <==> k in v.entries
    ensures ConvertEntries(t, t, v, ks, map[]) == Ok(v.entries) <==>
            forall k :: k in v.entries ==> Convert(t, t, v.entries[k]) == Ok(v.entries[k])
  {
    hide Convert, ConvertEntries;
    EntriesPointwise(t, t, v, ks, map[]);
    match ConvertEntries(t, t, v, ks, map[])
    case Ok(out) =>
      assert out.Keys == v.entries.Keys;
      assert out == v.entries <==> forall k :: k in v.entries ==> out[k] == v.entries[k];
    case Err(_) =>
  }

  lemma {:induction false} StructIdentity(t: Ty, v: Val)
    requires t.TStruct? && Sendable(t, v)
    ensures Convert(t, t, v) == Ok(v) <==> Survives(t, v)
    decreases v, 0
  {
    var fs, live, vs := t.fields, v.live, v.vals;
    StructParts(t, v);
    forall i | 0 <= i < |fs| && Written(fs[i], live, vs[i]) ensures
      ConvertField(fs[i], fs[i], vs[i]) == Ok(vs[i]) <==> FieldSurvives(fs[i], vs[i])
    {
      FieldReady(fs, live, vs, i);
      Identity(fs[i].ty, Sent(fs[i], vs[i]));
    }
    FieldsIdentity(fs, live, vs);
  }

  lemma {:induction false} FieldsIdentity(fs: seq<Field>, live: set<nat>, vs: seq<Val>)
    requires |vs| == |fs| && DistinctTags(fs)
    requires forall i :: 0 <= i < |fs| && Written(fs[i], live, vs[i]) ==>
      (ConvertField(fs[i], fs[i], vs[i]) == Ok(vs[i]) <==> FieldSurvives(fs[i], vs[i]))
    ensures ConvertFields(fs, fs, live, vs, {}, ZeroFields(fs)) == Ok((live, vs)) <==> FieldsSurvive(fs, live, vs)
  {
    hide ConvertFields, ConvertField, FieldSurvives, Reached, Source, ZeroField;
    FieldsPointwise(fs, fs, live, vs, {}, ZeroFields(fs));
    ReachedInside(fs, live, vs);
    forall i | 0 <= i < |fs| ensures
      Source(fs, live, vs, fs[i].tag) == if Written(fs[i], live, vs[i]) then Some(i) else None
    {
      OwnSource(fs, live, vs, i);
    }
    hide Written;
    match ConvertFields(fs, fs, live, vs, {}, ZeroFields(fs))
    case Ok((reach, out)) =>
      forall i | 0 <= i < |fs| ensures
        out[i] == vs[i] <==> if Written(fs[i], live, vs[i]) then FieldSurvives(fs[i], vs[i])
            else vs[i] == ZeroField(fs[i])
      {
        assert Filled(fs, live, vs, fs[i], ZeroField(fs[i]), out[i]);
      }
      assert out == vs <==> forall i :: 0 <= i < |fs| ==> out[i] == vs[i];
      SameReach(reach, Reached(fs, fs, live, vs), live);
    case Err(e) =>
      var j :| 0 <= j < |fs| && Refused(fs, live, vs, fs[j], e);
      assert Written(fs[j], live, vs[j]) && !FieldSurvives(fs[j], vs[j]);
  }

  lemma {:induction false} SameReach(reach: set<nat>, reached: set<nat>, live: set<nat>)
    requires reach == {} + reached && reached <= live
    ensures reach == live <==> live <= reached
  {
  }

  lemma {:induction false} OwnSource(fs: seq<Field>, live: set<nat>, vs: seq<Val>, i: nat)
    requires |vs| == |fs| && DistinctTags(fs) && i < |fs|
    ensures Source(fs, live, vs, fs[i].tag) == if Written(fs[i], live, vs[i]) then Some(i) else None
  {
    OnlyOne(fs, fs[i].tag);
  }

  lemma {:induction false} ReachedInside(fs: seq<Field>, live: set<nat>, vs: seq<Val>)
    requires |vs| == |fs| && DistinctTags(fs)
    ensures Reached(fs, fs, live, vs) <= live
  {
    forall h | h in Reached(fs, fs, live, vs) ensures h in live {
      var j :| 0 <= j < |fs| && Source(fs, live, vs, fs[j].tag).Some? && h in fs[j].hops;
      OnlyOne(fs, fs[j].tag);
    }
  }

  /** Round trip: decoding a value's bytes, whatever follows them, gives the value back exactly when it survives. */
  lemma {:induction false} RoundTrips(t: Ty, v: Val, rest: seq<byte>)
    requires Sendable(t, v) && |Enc(t, v)| < TWO_64
    ensures DecVal(t, Enc(t, v) + rest, Schema.Zero(t)) == Ok((v, |Enc(t, v)|)) <==> Survives(t, v)
  {
    SelfCompat(t);
    ReadsVal(t, t, v, rest);
    Identity(t, v);
  }

  /** The same for a whole body, as the root's UnmarshalGSBM reads it. */
  lemma {:induction false} BodyRoundTrips(fs: seq<Field>, live: set<nat>, vs: seq<Val>)
    requires Sendable(TStruct(fs), VStruct(live, vs)) && |EncFields(fs, live, vs)| < TWO_64
    ensures DecFields(fs, EncFields(fs, live, vs), {}, ZeroFields(fs)) == Ok((live, vs))
            <==> Survives(TStruct(fs), VStruct(live, vs))
  {
    var t, v := TStruct(fs), VStruct(live, vs);
    SelfCompat(t);
    StructParts(t, v);
    ReadsFields(fs, fs, live, vs, {}, ZeroFields(fs));
    Identity(t, v);
  }

  /** A body read under another schema: each field the reader declares holds the writer's value under the same tag or
      its zero, and a refusal is an overflow of a narrowed integer or a slice over the budget. */
  lemma {:induction false} BodyEvolves(ws: seq<Field>, rs: seq<Field>, live: set<nat>, vs: seq<Val>)
    requires Sendable(TStruct(ws), VStruct(live, vs)) && GoodFields(rs) && CompatFields(ws, rs)
    requires |EncFields(ws, live, vs)| < TWO_64
    ensures match DecFields(rs, EncFields(ws, live, vs), {}, ZeroFields(rs))
            case Ok((reach, out)) =>
              && |vs| == |ws| && reach == Reached(ws, rs, live, vs)
              && forall j :: 0 <= j < |rs| ==> Filled(ws, live, vs, rs[j], ZeroField(rs[j]), out[j])
            case Err(e) => Excused(TStruct(ws), TStruct(rs), VStruct(live, vs), e)
  {
    hide DecFields, EncFields, ConvertFields, Filled, Excused, Has, CanEnc, GoodTy, Reached;
    FieldsEvolve(ws, rs, live, vs);
    Parts(ws, live, vs);
    ReadsFields(ws, rs, live, vs, {}, ZeroFields(rs));
  }

  lemma {:induction false} Parts(ws: seq<Field>, live: set<nat>, vs: seq<Val>)
    requires Sendable(TStruct(ws), VStruct(live, vs))
    ensures FieldsSendable(ws, live, vs)
  {
    StructParts(TStruct(ws), VStruct(live, vs));
  }

  lemma {:induction false} FieldsEvolve(ws: seq<Field>, rs: seq<Field>, live: set<nat>, vs: seq<Val>)
    requires Sendable(TStruct(ws), VStruct(live, vs)) && GoodFields(rs) && CompatFields(ws, rs)
    ensures match ConvertFields(ws, rs, live, vs, {}, ZeroFields(rs))
            case Ok((reach, out)) =>
              && |vs| == |ws| && reach == Reached(ws, rs, live, vs)
              && forall j :: 0 <= j < |rs| ==> Filled(ws, live, vs, rs[j], ZeroField(rs[j]), out[j])
            case Err(e) => Excused(TStruct(ws), TStruct(rs), VStruct(live, vs), e)
  {
    var w, r, v := TStruct(ws), TStruct(rs), VStruct(live, vs);
    Parts(ws, live, vs);
    var c := ConvertFields(ws, rs, live, vs, {}, ZeroFields(rs));
    if c.Err? {
      assert Convert(w, r, v) == Err(c.error);
      WhyRefused(w, r, v);
    } else {
      hide ConvertFields, Has, CanEnc, GoodTy, Filled, Reached;
      FieldsPointwise(ws, rs, live, vs, {}, ZeroFields(rs));
      assert {} + Reached(ws, rs, live, vs) == Reached(ws, rs, live, vs);
    }
  }

  /** Zero values can be sent. */
  lemma {:induction false} ZeroSendable(t: Ty)
    requires GoodTy(t)
    ensures Sendable(t, Schema.Zero(t))
    decreases t, 1
  {
    match t
    case TStruct(fs) =>
      forall i | 0 <= i < |fs| ensures HasField(fs[i], {}, ZeroField(fs[i]))
          && (!fs[i].idRef ==> CanEncField(fs[i], ZeroField(fs[i]))) {
        ZeroFieldSendable(fs[i]);
      }
    case TFix(width) => assert Pow256(width) > 0 by { PowPositive(width); }
    case _ =>
  }

  lemma {:induction false} PowPositive(k: nat)
    ensures Pow256(k) > 0
  {
    if k > 0 {
      PowPositive(k - 1);
    }
  }

  lemma {:induction false} ZeroFieldSendable(f: Field)
    requires GoodField(f)
    ensures HasField(f, {}, ZeroField(f)) && (!f.idRef ==> CanEncField(f, ZeroField(f)))
    decreases f, 0
  {
    ZeroSendable(f.ty);
  }

  /** and come back. */
  lemma {:induction false} ZeroSurvives(t: Ty)
    requires GoodTy(t)
    ensures Survives(t, Schema.Zero(t))
    decreases t, 1
  {
    if t.TStruct? {
      var fs := t.fields;
      forall i | 0 <= i < |fs| && Written(fs[i], {}, ZeroField(fs[i])) ensures FieldSurvives(fs[i], ZeroField(fs[i])) {
        ZeroFieldSurvives(fs[i]);
      }
    }
  }

  lemma {:induction false} ZeroFieldSurvives(f: Field)
    requires GoodField(f) && !f.idRef
    ensures FieldSurvives(f, ZeroField(f))
    decreases f, 0
  {
    ZeroSurvives(f.ty);
  }
}
