/** Decoding into a used receiver gives what decoding into a new one gives. */
module WarmCold {
  import opened Basics
  import opened Ops
  import opened Wire
  import opened Schema
  import opened Generated
  import opened Warm

  lemma {:induction false} FreshHolds(t: Ty)
    ensures Abs(t, Fresh(t)) == Schema.Zero(t) && Fit(t, Fresh(t), false) && Fit(t, Fresh(t), true)
    decreases t, 1
  {
    if t.TMap? {
      assert Abs(t, Fresh(t)).entries == map[];
    } else if t.TStruct? {
      FreshCellsHold(t.fields);
    }
  }

  lemma {:induction false} FreshCellsHold(fs: seq<Field>)
    ensures AbsCells(fs, FreshCells(fs)) == ZeroFields(fs)
    ensures forall i :: 0 <= i < |fs| ==>
            FitCell(fs[i], FreshCells(fs)[i], false) && FitCell(fs[i], FreshCells(fs)[i], true)
    decreases fs, 2
  {
    forall i | 0 <= i < |fs|
      ensures AbsCell(fs[i], FreshCell(fs[i])) == ZeroField(fs[i])
      ensures FitCell(fs[i], FreshCell(fs[i]), false) && FitCell(fs[i], FreshCell(fs[i]), true)
    {
      FreshCellHolds(fs[i]);
    }
    assert AbsCells(fs, FreshCells(fs)) == ZeroFields(fs);
  }

  lemma {:induction false} FreshCellHolds(f: Field)
    ensures AbsCell(f, FreshCell(f)) == ZeroField(f)
    ensures FitCell(f, FreshCell(f), false) && FitCell(f, FreshCell(f), true)
    decreases f, 0
  {
    FreshHolds(f.ty);
  }

  /** What can be decoded over as it is can be decoded over once it is reset. */
  lemma {:induction false} FitClean(t: Ty, m: Mem)
    requires Fit(t, m, false)
    ensures Fit(t, m, true)
    decreases m
  {
    if t.TStruct? && m.MStruct? && |m.cells| == |t.fields| {
      forall i | 0 <= i < |t.fields| ensures FitCell(t.fields[i], m.cells[i], true) {
        assert FitCell(t.fields[i], m.cells[i], false);
        if !t.fields[i].idRef {
          FitClean(t.fields[i].ty, m.cells[i]);
        }
      }
    }
  }

  /** Reset leaves the zero value, whatever was there, and exactly the capacities Fit speaks of. */
  lemma {:induction false} ResetHolds(t: Ty, m: Mem)
    ensures Abs(t, Reset(t, m)) == Schema.Zero(t)
    ensures Fit(t, Reset(t, m), false) <==> Fit(t, m, true)
    ensures Fit(t, Reset(t, m), true) <==> Fit(t, m, true)
    decreases m, 1
  {
    hide ResetUsed, ResetCells, AbsAll, AbsCells, Fresh, FreshCells, ResetSlot, OverBudget;
    FreshHolds(t);
    match (t, m)
    case (TSlice(elem, _), MSlice(slots, len)) =>
      forall i | 0 <= i < |slots|
        ensures FitSlot(elem, ResetUsed(elem, slots, Min(len, |slots|))[i], false) <==> FitSlot(elem, slots[i], i < len)
      {
        ResetUsedAt(elem, slots, Min(len, |slots|), i);
        ResetSlotFits(elem, slots[i]);
      }
    case (TStruct(fs), MStruct(_, cells)) =>
      if |cells| == |fs| {
        ResetCellsHold(fs, cells);
        assert AbsCells(fs, ResetCells(fs, cells)) == ZeroFields(fs);
      }
    case _ =>
  }

  lemma {:induction false} ResetUsedAt(t: Ty, slots: seq<Mem>, n: nat, i: nat)
    requires n <= |slots| && i < |slots|
    ensures ResetUsed(t, slots, n)[i] == if i < n then ResetSlot(t, slots[i]) else slots[i]
    decreases n
  {
    hide ResetSlot;
    if n > 0 && i > 0 {
      ResetUsedAt(t, slots[1..], n - 1, i - 1);
    }
  }

  lemma {:induction false} ResetSlotFits(t: Ty, m: Mem)
    ensures FitSlot(t, ResetSlot(t, m), false) <==> FitSlot(t, m, true)
    decreases m, 2
  {
    FreshHolds(t);
    if t.TStruct? {
      ResetHolds(t, m);
    }
  }

  lemma {:induction false} ResetCellsAt(fs: seq<Field>, cells: seq<Mem>, i: nat)
    requires |cells| == |fs| && i < |fs|
    ensures ResetCells(fs, cells)[i]
            == if fs[i].hops == {} && !fs[i].idRef then Reset(fs[i].ty, cells[i]) else FreshCell(fs[i])
    decreases i
  {
    hide Reset, FreshCell;
    if i > 0 {
      ResetCellsAt(fs[1..], cells[1..], i - 1);
    }
  }

  lemma {:induction false} ResetCellsHold(fs: seq<Field>, cells: seq<Mem>)
    requires |cells| == |fs|
    ensures forall i :: 0 <= i < |fs| ==>
      && AbsCell(fs[i], ResetCells(fs, cells)[i]) == ZeroField(fs[i])
      && (FitCell(fs[i], ResetCells(fs, cells)[i], false) <==> FitCell(fs[i], cells[i], true))
      && (FitCell(fs[i], ResetCells(fs, cells)[i], true) <==> FitCell(fs[i], cells[i], true))
    decreases cells, 0
  {
    hide ResetCells, Reset, Fresh;
    forall i | 0 <= i < |fs| ensures
      && AbsCell(fs[i], ResetCells(fs, cells)[i]) == ZeroField(fs[i])
      && (FitCell(fs[i], ResetCells(fs, cells)[i], false) <==> FitCell(fs[i], cells[i], true))
      && (FitCell(fs[i], ResetCells(fs, cells)[i], true) <==> FitCell(fs[i], cells[i], true))
    {
      ResetCellsAt(fs, cells, i);
      FreshCellHolds(fs[i]);
      ResetHolds(fs[i].ty, cells[i]);
    }
  }

  /** got is what want says, on memory. */
  ghost predicate Matches(t: Ty, want: Result<(Val, nat)>, got: (Mem, Result<nat>)) {
    match want
    case Ok((v, n)) => got.1 == Ok(n) && Abs(t, got.0) == v
    case Err(e) => got.1 == Err(e)
  }

  /** And what was decoded, or was left by a failure, can be decoded over again. */
  ghost predicate Agrees(t: Ty, want: Result<(Val, nat)>, got: (Mem, Result<nat>)) {
    Fit(t, got.0, false) && Matches(t, want, got)
  }

  ghost predicate AgreesSlot(t: Ty, want: Result<(Val, nat)>, got: (Mem, Result<nat>)) {
    FitSlot(t, got.0, false) && Matches(t, want, got)
  }

  lemma {:induction false} WarmVal(t: Ty, s: seq<byte>, m: Mem)
    requires Fit(t, m, false)
    ensures Agrees(t, DecVal(t, s, Abs(t, m)), DecMem(t, s, m))
    decreases |s|, 1
  {
    match t
    case TSlice(_, _) => WarmSlice(t, s, m);
    case TMap(_, _) => WarmMap(t, s, m);
    case TOpt(target, elide) => WarmPtr(target, elide, s, m, false, Abs(t, m));
    case TStruct(_) => WarmStruct(t, s, m);
    case _ =>
  }

  ghost predicate AllFit(t: Ty, slots: seq<Mem>) { forall i :: 0 <= i < |slots| ==> FitSlot(t, slots[i], false) }

  ghost predicate AgreesAll(t: Ty, want: Result<(seq<Val>, nat)>, got: (seq<Mem>, Result<nat>)) {
    && AllFit(t, got.0)
    && match want
       case Ok((vs, n)) => got.1 == Ok(n) && AbsAll(t, got.0, |got.0|) == vs
       case Err(e) => got.1 == Err(e)
  }

  lemma {:induction false} BlankFits(t: Ty, count: nat)
    ensures AllFit(t, Blank(t, count))
  {
    FreshHolds(t);
  }

  /** EndLengthDelim, on values. */
  function Ended<T>(r: Result<(T, nat)>, left: nat, n: nat): Result<(T, nat)> {
    match r
    case Err(e) => Err(e)
    case Ok((x, used)) => if used < left then Err(TrailingBytes) else Ok((x, n))
  }

  lemma {:induction false} EndedMatches(t: Ty, want: Result<(Val, nat)>, got: (Mem, Result<nat>), left: nat, n: nat)
    requires Matches(t, want, got)
    ensures Matches(t, Ended(want, left, n), (got.0, EndRegion(got.1, left, n)))
  {
    hide Abs;
  }

  /** The region of a slice, on values. */
  function CountedVal(elem: Ty, size: nat, body: seq<byte>, cur: Val): Result<(Val, nat)> {
    match CountAt(body)
    case Err(e) => Err(e)
    case Ok((count, k)) =>
      if count == 0 then Ok((if cur.VSlice? then cur else VSlice([]), k))
      else if OverBudget(count, size) then Err(AllocTooLarge)
      else match DecElems(elem, count, body[k..]) case Err(e) => Err(e) case Ok((es, n)) => Ok((VSlice(es), k + n))
  }

  lemma {:induction false} SliceVal(elem: Ty, size: nat, s: seq<byte>, cur: Val)
    ensures DecVal(TSlice(elem, size), s, cur) ==
            if DelimAt(s).Err? then Err(DelimAt(s).error)
            else Ended(CountedVal(elem, size, DelimAt(s).value.0, cur), |DelimAt(s).value.0|, DelimAt(s).value.1)
  {
    hide DelimAt, DecElems, CountAt, OverBudget;
    forall body ensures DecElems(elem, 0, body) == Ok(([], 0)) {
      NoElems(elem, body);
    }
  }

  lemma {:induction false} NoElems(t: Ty, s: seq<byte>)
    ensures DecElems(t, 0, s) == Ok(([], 0))
  {
  }

  lemma {:induction false} WarmSlice(t: Ty, s: seq<byte>, m: Mem)
    requires t.TSlice? && Fit(t, m, false)
    ensures Agrees(t, DecVal(t, s, Abs(t, m)), DecMem(t, s, m))
    decreases |s|, 0
  {
    assert DecMem(t, s, m) == DecSlice(t.elem, t.elemSize, s, m);
    hide DecVal, DecMem, DecCounted, CountedVal, DelimAt, Ended, EndRegion, Abs, Fit, Matches;
    SliceVal(t.elem, t.elemSize, s, Abs(t, m));
    match DelimAt(s)
    case Err(e) => ErrMatches(t, e, m);
    case Ok((body, n)) =>
      WarmCounted(t, body, m);
      EndedMatches(t, CountedVal(t.elem, t.elemSize, body, Abs(t, m)), DecCounted(t.elem, t.elemSize, body, m), |body|,
          n);
  }

  lemma {:induction false} ErrMatches(t: Ty, e: Error, m: Mem)
    ensures Matches(t, Err(e), (m, Err(e)))
  {
  }

  lemma {:induction false} WarmCounted(t: Ty, body: seq<byte>, m: Mem)
    requires t.TSlice? && Fit(t, m, false)
    ensures Agrees(t, CountedVal(t.elem, t.elemSize, body, Abs(t, m)), DecCounted(t.elem, t.elemSize, body, m))
    decreases |body|, 4
  {
    hide DecSlots, DecElems, AbsAll, Blank, CountAt, OverBudget, FitSlot;
    if CountAt(body).Ok? && Slotted(t, CountAt(body).value.0, m) {
      WarmSlotted(t, body, m);
    }
  }

  /** The slice has the slots, or may have them. */
  predicate Slotted(t: Ty, count: nat, m: Mem)
    requires t.TSlice?
  {
    count > 0 && ((m.MSlice? && |m.slots| >= count) || !OverBudget(count, t.elemSize))
  }

  lemma {:induction false} WarmSlotted(t: Ty, body: seq<byte>, m: Mem)
    requires t.TSlice? && Fit(t, m, false) && CountAt(body).Ok? && Slotted(t, CountAt(body).value.0, m)
    ensures Agrees(t, CountedVal(t.elem, t.elemSize, body, Abs(t, m)), DecCounted(t.elem, t.elemSize, body, m))
    decreases |body|, 3
  {
    hide DecSlots, DecElems, AbsAll, Blank, CountAt, OverBudget, FitSlot;
    var (count, k) := CountAt(body).value;
    var slots := if m.MSlice? then m.slots else [];
    var room := if |slots| >= count then slots else Blank(t.elem, count);
    BlankFits(t.elem, count);
    SmallerFits(count, |room|, t.elemSize);
    WarmSlots(t.elem, room[..count], body[k..]);
    SliceMem(t, DecSlots(t.elem, room[..count], body[k..]).0, room[count..]);
  }

  lemma {:induction false} SmallerFits(a: nat, b: nat, size: nat)
    requires a <= b && !OverBudget(b, size)
    ensures !OverBudget(a, size)
  {
    assert a * size <= b * size;
  }

  lemma {:induction false} SamePrefix(t: Ty, all: seq<Mem>, used: seq<Mem>)
    requires used <= all
    ensures AbsAll(t, all, |used|) == AbsAll(t, used, |used|)
  {
    hide Abs, AbsAll;
    assert forall i :: 0 <= i < |used| ==> all[i] == used[i];
  }

  /** What a slice with spare slots holds. */
  lemma {:induction false} SliceMem(t: Ty, used: seq<Mem>, spare: seq<Mem>)
    requires t.TSlice?
    ensures Abs(t, MSlice(used + spare, |used|)) == VSlice(AbsAll(t.elem, used, |used|))
  {
    hide AbsAll;
    var all, n := used + spare, |used|;
    SamePrefix(t.elem, all, used);
    assert Abs(t, MSlice(all, n)) == VSlice(AbsAll(t.elem, all, Min(n, |all|)));
  }

  lemma {:induction false} WarmSlots(t: Ty, slots: seq<Mem>, s: seq<byte>)
    requires AllFit(t, slots)
    ensures AgreesAll(t, DecElems(t, |slots|, s), DecSlots(t, slots, s))
    decreases |s|, 3, |slots|
  {
    hide DecVal, DecSlot, DecElems, DecSlots, Abs, AbsAll, FitSlot, AgreesAll;
    if |slots| == 0 {
      NoSlots(t, slots, s);
    } else {
      WarmSlot(t, s, slots[0]);
      var (m, r) := DecSlot(t, s, slots[0]);
      match r
      case Err(e) => SlotsStop(t, slots, s, m, e);
      case Ok(n) =>
        WarmSlots(t, slots[1..], s[n..]);
        ElemsTurn(t, |slots|, s, Abs(t, m), n);
        SlotsTurn(t, slots, s, m, n);
        SlotsJoin(t, m, n, DecElems(t, |slots| - 1, s[n..]), DecSlots(t, slots[1..], s[n..]));
    }
  }

  lemma {:induction false} NoSlots(t: Ty, slots: seq<Mem>, s: seq<byte>)
    requires |slots| == 0
    ensures AgreesAll(t, DecElems(t, |slots|, s), DecSlots(t, slots, s))
  {
  }

  lemma {:induction false} SlotsStop(t: Ty, slots: seq<Mem>, s: seq<byte>, m: Mem, e: Error)
    requires |slots| > 0 && AllFit(t, slots) && FitSlot(t, m, false)
    requires DecVal(t, s, Schema.Zero(t)) == Err(e) && DecSlot(t, s, slots[0]) == (m, Err(e))
    ensures AgreesAll(t, DecElems(t, |slots|, s), DecSlots(t, slots, s))
  {
    hide DecVal, DecSlot, FitSlot;
  }

  lemma {:induction false} SlotsJoin(t: Ty, m: Mem, n: nat, want: Result<(seq<Val>, nat)>, got: (seq<Mem>, Result<nat>))
    requires FitSlot(t, m, false) && AgreesAll(t, want, got)
    ensures AgreesAll(t, match want case Ok((vs, k)) => Ok(([Abs(t, m)] + vs, n + k)) case Err(e) => Err(e),
                      ([m] + got.0, match got.1 case Err(e) => Err(e) case Ok(k) => Ok(n + k)))
  {
    hide Abs, AbsAll, FitSlot;
    AbsAllCons(t, m, got.0);
  }

  lemma {:induction false} AbsAllCons(t: Ty, m: Mem, rest: seq<Mem>)
    ensures AbsAll(t, [m] + rest, |rest| + 1) == [Abs(t, m)] + AbsAll(t, rest, |rest|)
  {
    hide Abs;
    assert ([m] + rest)[1..] == rest;
  }

  /** One turn of the element loop, on values and on memory. */
  lemma {:induction false} ElemsTurn(t: Ty, count: nat, s: seq<byte>, x: Val, n: nat)
    requires count > 0 && DecVal(t, s, Schema.Zero(t)) == Ok((x, n))
    ensures DecElems(t, count, s) ==
            match DecElems(t, count - 1, s[n..])
            case Ok((vs, k)) => Ok(([x] + vs, n + k))
            case Err(e) => Err(e)
  {
    hide DecVal;
  }

  lemma {:induction false} SlotsTurn(t: Ty, slots: seq<Mem>, s: seq<byte>, x: Mem, n: nat)
    requires |slots| > 0 && DecSlot(t, s, slots[0]) == (x, Ok(n))
    ensures var rest := DecSlots(t, slots[1..], s[n..]);
            DecSlots(t, slots, s) == ([x] + rest.0, match rest.1 case Err(e) => Err(e) case Ok(k) => Ok(n + k))
  {
    hide DecSlot;
  }

  lemma {:induction false} WarmSlot(t: Ty, s: seq<byte>, m: Mem)
    requires FitSlot(t, m, false)
    ensures AgreesSlot(t, DecVal(t, s, Schema.Zero(t)), DecSlot(t, s, m))
    decreases |s|, 2
  {
    match t
    case TStruct(_) =>
      ResetHolds(t, m);
      WarmVal(t, s, Reset(t, m));
      FitClean(t, DecMem(t, s, Reset(t, m)).0);
    case TSlice(_, _) => WarmVal(t, s, if m.MSlice? then m.(len := 0) else m);
    case TMap(_, _) =>
      FreshHolds(t);
      WarmVal(t, s, MMap(map[]));
    case TOpt(target, elide) => WarmPtr(target, elide, s, m, true, Schema.Zero(t));
    case _ => WarmVal(t, s, m);
  }

  ghost function AbsMap(t: Ty, m: map<Key, Mem>): map<Key, Val> { map k | k in m :: Abs(t, m[k]) }

  lemma {:induction false} AbsMapAdd(t: Ty, m: map<Key, Mem>, k: Key, x: Mem)
    ensures AbsMap(t, m[k := x]) == AbsMap(t, m)[k := Abs(t, x)]
  {
  }

  /** The region of a map, on values. */
  function ListedVal(kt: KeyTy, vt: Ty, body: seq<byte>, cur: Val): Result<(Val, nat)> {
    match CountAt(body)
    case Err(e) => Err(e)
    case Ok((count, k)) =>
      match DecEntries(kt, vt, count, body[k..], if cur.VMap? then cur.entries else map[])
      case Err(e) => Err(e)
      case Ok((m, n)) => Ok((VMap(m), k + n))
  }

  lemma {:induction false} MapVal(kt: KeyTy, vt: Ty, s: seq<byte>, cur: Val)
    ensures DecVal(TMap(kt, vt), s, cur) ==
            if DelimAt(s).Err? then Err(DelimAt(s).error)
            else Ended(ListedVal(kt, vt, DelimAt(s).value.0, cur), |DelimAt(s).value.0|, DelimAt(s).value.1)
  {
    hide DelimAt, DecEntries, CountAt;
  }

  lemma {:induction false} WarmMap(t: Ty, s: seq<byte>, m: Mem)
    requires t.TMap?
    ensures Agrees(t, DecVal(t, s, Abs(t, m)), DecMem(t, s, m))
    decreases |s|, 0
  {
    assert DecMem(t, s, m) == DecMap(t.key, t.val, s, m);
    hide DecVal, DecMem, DecListed, ListedVal, DelimAt, Ended, EndRegion, Abs, Matches;
    MapVal(t.key, t.val, s, Abs(t, m));
    match DelimAt(s)
    case Err(e) => ErrMatches(t, e, m);
    case Ok((body, n)) =>
      WarmListed(t, body, m);
      EndedMatches(t, ListedVal(t.key, t.val, body, Abs(t, m)), DecListed(t.key, t.val, body, m), |body|, n);
  }

  lemma {:induction false} WarmListed(t: Ty, body: seq<byte>, m: Mem)
    requires t.TMap?
    ensures Matches(t, ListedVal(t.key, t.val, body, Abs(t, m)), DecListed(t.key, t.val, body, m))
    decreases |body|, 4
  {
    hide DecPairs, DecEntries, CountAt;
    if CountAt(body).Ok? {
      var (count, k) := CountAt(body).value;
      var entries := if m.MMap? then m.entries else map[];
      assert AbsMap(t.val, map[]) == map[];
      assert (if Abs(t, m).VMap? then Abs(t, m).entries else map[]) == AbsMap(t.val, entries);
      WarmPairs(t.key, t.val, count, body[k..], entries);
      var out := DecPairs(t.key, t.val, count, body[k..], entries).0;
      assert Abs(t, MMap(out)) == VMap(AbsMap(t.val, out));
    }
  }

  ghost predicate AgreesMap(t: Ty, want: Result<(map<Key, Val>, nat)>, got: (map<Key, Mem>, Result<nat>)) {
    match want
    case Ok((m, n)) => got.1 == Ok(n) && AbsMap(t, got.0) == m
    case Err(e) => got.1 == Err(e)
  }

  lemma {:induction false} WarmPairs(kt: KeyTy, vt: Ty, count: nat, s: seq<byte>, m: map<Key, Mem>)
    ensures AgreesMap(vt, DecEntries(kt, vt, count, s, AbsMap(vt, m)), DecPairs(kt, vt, count, s, m))
    decreases |s|, 3
  {
    hide DecVal, DecMem, DecKey, DecEntries, DecPairs, Abs, Fit, AbsMap, Plus;
    if count == 0 {
      NoPairs(kt, vt, s, m);
    } else if DecKey(kt, s).Err? {
      PairsStop(kt, vt, count, s, AbsMap(vt, m), m, DecKey(kt, s).error);
    } else {
      var (k, a) := DecKey(kt, s).value;
      FreshHolds(vt);
      WarmVal(vt, s[a..], Fresh(vt));
      var (x, r) := DecMem(vt, s[a..], Fresh(vt));
      if r.Err? {
        PairsStop(kt, vt, count, s, AbsMap(vt, m), m, r.error);
      } else {
        var b := r.value;
        EntriesTurn(kt, vt, count, s, AbsMap(vt, m), k, a, Abs(vt, x), b);
        PairsTurn(kt, vt, count, s, m, k, a, x, b);
        AbsMapAdd(vt, m, k, x);
        WarmPairs(kt, vt, count - 1, s[a + b..], m[k := x]);
        AgreesLater(vt, DecEntries(kt, vt, count - 1, s[a + b..], AbsMap(vt, m[k := x])),
                    DecPairs(kt, vt, count - 1, s[a + b..], m[k := x]), a + b);
      }
    }
  }

  lemma {:induction false} NoPairs(kt: KeyTy, vt: Ty, s: seq<byte>, m: map<Key, Mem>)
    ensures AgreesMap(vt, DecEntries(kt, vt, 0, s, AbsMap(vt, m)), DecPairs(kt, vt, 0, s, m))
  {
    hide AbsMap;
  }

  lemma {:induction false} AgreesLater(t: Ty, want: Result<(map<Key, Val>, nat)>, got: (map<Key, Mem>, Result<nat>),
                                       n: nat)
    requires AgreesMap(t, want, got)
    ensures AgreesMap(t, Plus(want, n), (got.0, match got.1 case Err(e) => Err(e) case Ok(c) => Ok(n + c)))
  {
    hide AbsMap;
  }

  lemma {:induction false} PairsStop(kt: KeyTy, vt: Ty, count: nat, s: seq<byte>, m: map<Key, Val>, n: map<Key, Mem>,
                                     e: Error)
    requires count > 0
    requires match DecKey(kt, s)
             case Err(f) => f == e
             case Ok((_, a)) =>
               DecVal(vt, s[a..], Schema.Zero(vt)) == Err(e) && DecMem(vt, s[a..], Fresh(vt)).1 == Err(e)
    ensures DecEntries(kt, vt, count, s, m) == Err(e) && DecPairs(kt, vt, count, s, n) == (n, Err(e))
  {
    hide DecKey, DecVal, DecMem;
  }

  function Plus<T>(r: Result<(T, nat)>, n: nat): Result<(T, nat)> {
    match r
    case Ok((x, k)) => Ok((x, n + k))
    case Err(e) => Err(e)
  }

  /** One turn of the entry loop, on values and on memory. */
  lemma {:induction false} EntriesTurn(kt: KeyTy, vt: Ty, count: nat, s: seq<byte>, m: map<Key, Val>, k: Key, a: nat,
                                       x: Val, b: nat)
    requires count > 0 && DecKey(kt, s) == Ok((k, a)) && DecVal(vt, s[a..], Schema.Zero(vt)) == Ok((x, b))
    ensures DecEntries(kt, vt, count, s, m) == Plus(DecEntries(kt, vt, count - 1, s[a + b..], m[k := x]), a + b)
  {
    hide DecKey, DecVal;
  }

  lemma {:induction false} PairsTurn(kt: KeyTy, vt: Ty, count: nat, s: seq<byte>, m: map<Key, Mem>, k: Key, a: nat,
                                     x: Mem, b: nat)
    requires count > 0 && DecKey(kt, s) == Ok((k, a)) && DecMem(vt, s[a..], Fresh(vt)) == (x, Ok(b))
    ensures var rest := DecPairs(kt, vt, count - 1, s[a + b..], m[k := x]);
            DecPairs(kt, vt, count, s, m) == (rest.0, match rest.1 case Err(e) => Err(e) case Ok(c) => Ok(a + b + c))
  {
    hide DecKey, DecMem;
  }

  /** The region of an optional, on values. */
  function PresentVal(target: Ty, elide: bool, body: seq<byte>): Result<(Val, nat)> {
    match PresenceAt(body, elide)
    case Err(e) => Err(e)
    case Ok((p, _)) =>
      match p
      case Nil => Ok((VNil, 1))
      case Zero => Ok((VSome(Schema.Zero(target)), 1))
      case NonZero => match DecInline(target,
          body[1..]) case Err(e) => Err(e) case Ok((x, used)) => Ok((VSome(x), 1 + used))
  }

  lemma {:induction false} OptVal(target: Ty, elide: bool, s: seq<byte>, cur: Val)
    ensures DecVal(TOpt(target, elide), s, cur) ==
            if DelimAt(s).Err? then Err(DelimAt(s).error)
            else Ended(PresentVal(target, elide, DelimAt(s).value.0), |DelimAt(s).value.0|, DelimAt(s).value.1)
  {
    hide DelimAt, DecInline;
  }

  lemma {:induction false} WarmPtr(target: Ty, elide: bool, s: seq<byte>, m: Mem, keep: bool, cur: Val)
    requires keep ==> FitSlot(TOpt(target, elide), m, false)
    ensures Agrees(TOpt(target, elide), DecVal(TOpt(target, elide), s, cur), DecPtr(target, elide, s, m, keep))
    ensures keep ==> FitSlot(TOpt(target, elide), DecPtr(target, elide, s, m, keep).0, false)
    decreases |s|, 0
  {
    hide DecVal, DecPresent, PresentVal, DelimAt, Ended, EndRegion, FitSlot, Matches;
    OptVal(target, elide, s, cur);
    match DelimAt(s)
    case Err(e) => ErrMatches(TOpt(target, elide), e, m);
    case Ok((body, n)) =>
      WarmPresent(target, elide, body, m, keep);
      EndedMatches(TOpt(target, elide), PresentVal(target, elide, body), DecPresent(target, elide, body, m, keep),
          |body|, n);
  }

  lemma {:induction false} WarmPresent(target: Ty, elide: bool, body: seq<byte>, m: Mem, keep: bool)
    requires keep ==> FitSlot(TOpt(target, elide), m, false)
    ensures Matches(TOpt(target, elide), PresentVal(target, elide, body), DecPresent(target, elide, body, m, keep))
    ensures keep ==> FitSlot(TOpt(target, elide), DecPresent(target, elide, body, m, keep).0, false)
    decreases |body|, 3
  {
    hide DecInline, DecPointee, PresenceAt, Reset, Fresh, Abs, Fit;
    FreshHolds(target);
    PointerHolds(target, elide, Fresh(target));
    if PresenceAt(body, elide).Ok? && PresenceAt(body, elide).value.0 == NonZero {
      WarmTarget(target, elide, body, m, keep);
      PointerHolds(target, elide, DecPointee(target, body[1..], Cell(target, m, keep)).0);
    }
  }

  /** What a pointer's target is decoded over. */
  function Cell(target: Ty, m: Mem, keep: bool): Mem {
    if keep && m.MNew? then Reset(target, m.target) else Fresh(target)
  }

  lemma {:induction false} WarmTarget(target: Ty, elide: bool, body: seq<byte>, m: Mem, keep: bool)
    requires |body| > 0 && (keep ==> FitSlot(TOpt(target, elide), m, false))
    ensures var got := DecPointee(target, body[1..], Cell(target, m, keep));
            Fit(target, got.0, true) && Matches(target, DecInline(target, body[1..]), got)
    decreases |body|, 2
  {
    hide DecInline, DecPointee, Reset, Fresh, Abs, Fit;
    FreshHolds(target);
    if m.MNew? {
      ResetHolds(target, m.target);
    }
    WarmPointee(target, body[1..], Cell(target, m, keep));
    FitClean(target, DecPointee(target, body[1..], Cell(target, m, keep)).0);
  }

  lemma {:induction false} PointerHolds(target: Ty, elide: bool, x: Mem)
    ensures Abs(TOpt(target, elide), MNew(x)) == VSome(Abs(target, x)) && Abs(TOpt(target, elide), MNil) == VNil
  {
  }

  lemma {:induction false} WarmPointee(t: Ty, s: seq<byte>, m: Mem)
    requires Fit(t, m, false) && Abs(t, m) == Schema.Zero(t)
    ensures Agrees(t, DecInline(t, s), DecPointee(t, s, m))
    decreases |s|, 2
  {
    if t.TStruct? {
      CellsHeld(t, m);
      WarmCells(t.fields, s, Live(t.fields, m), Cells(t.fields, m));
    } else {
      WarmVal(t, s, m);
    }
  }

  /** The fields a receiver holds, in memory and as values. */
  lemma {:induction false} CellsHeld(t: Ty, m: Mem)
    requires t.TStruct? && Fit(t, m, false)
    ensures Held(t.fields, Abs(t, m)) == AbsCells(t.fields, Cells(t.fields, m))
    ensures Abs(t, m).VStruct? && Abs(t, m).live == Live(t.fields, m) && Abs(t, m).vals == Held(t.fields, Abs(t, m))
    ensures forall i :: 0 <= i < |t.fields| ==> FitCell(t.fields[i], Cells(t.fields, m)[i], false)
  {
    FreshCellsHold(t.fields);
  }

  lemma {:induction false} WarmStruct(t: Ty, s: seq<byte>, m: Mem)
    requires t.TStruct? && Fit(t, m, false)
    ensures Agrees(t, DecVal(t, s, Abs(t, m)), DecMem(t, s, m))
    decreases |s|, 0
  {
    CellsHeld(t, m);
    if DelimAt(s).Ok? {
      WarmCells(t.fields, DelimAt(s).value.0, Live(t.fields, m), Cells(t.fields, m));
    }
  }

  ghost predicate AgreesCells(fs: seq<Field>, want: Result<(set<nat>, seq<Val>)>, got: (Mem, Option<Error>)) {
    && got.0.MStruct? && |got.0.cells| == |fs|
    && (forall i :: 0 <= i < |fs| ==> FitCell(fs[i], got.0.cells[i], false))
    && match want
       case Ok((live, vs)) => got.1 == None && got.0.live == live && AbsCells(fs, got.0.cells) == vs
       case Err(e) => got.1 == Some(e)
  }

  lemma {:induction false} WarmCells(fs: seq<Field>, s: seq<byte>, live: set<nat>, cells: seq<Mem>)
    requires |cells| == |fs| && forall i :: 0 <= i < |fs| ==> FitCell(fs[i], cells[i], false)
    ensures AgreesCells(fs, DecFields(fs, s, live, AbsCells(fs, cells)), DecCells(fs, s, live, cells))
    decreases |s|, 0
  {
    hide DecField, DecCell, TagAt, SkipAt, Find, AbsCells, AbsCell, FitCell;
    if |s| > 0 && TagAt(s).Ok? {
      var ((tag, wire), n) := TagAt(s).value;
      match Find(fs, tag)
      case None =>
        if SkipAt(s[n..], wire).Ok? {
          WarmCells(fs, s[n + SkipAt(s[n..], wire).value..], live, cells);
        }
      case Some(i) =>
        if wire == WireOf(fs[i].ty) {
          WarmCell(fs[i], s[n..], cells[i]);
          var (m, r) := DecCell(fs[i], s[n..], cells[i]);
          if r.Ok? {
            assert AbsCells(fs, cells[i := m]) == AbsCells(fs, cells)[i := AbsCell(fs[i], m)];
            WarmCells(fs, s[n + r.value..], live + fs[i].hops, cells[i := m]);
          }
        }
    }
  }

  lemma {:induction false} WarmCell(f: Field, s: seq<byte>, m: Mem)
    requires FitCell(f, m, false)
    ensures FitCell(f, DecCell(f, s, m).0, false)
    ensures match DecField(f, s, AbsCell(f, m))
            case Ok(x) => DecCell(f, s, m).1 == Ok(x.1) && AbsCell(f, DecCell(f, s, m).0) == x.0
            case Err(e) => DecCell(f, s, m).1 == Err(e)
    decreases |s|, 2
  {
    if f.idRef {
      FreshHolds(f.ty);
      WarmVal(f.ty, s, Fresh(f.ty));
    } else {
      WarmVal(f.ty, s, m);
    }
  }

  /** DecodeBodyInto: reset, then decode. */
  function Afterwards(fs: seq<Field>, s: seq<byte>, m: Mem): (Mem, Option<Error>) {
    var clean := Reset(TStruct(fs), m);
    DecCells(fs, s, Live(fs, clean), Cells(fs, clean))
  }

  /** The verdict and the value of decoding a body into a new receiver. */
  ghost predicate LikeNew(fs: seq<Field>, body: seq<byte>, out: Mem, e: Option<Error>) {
    match DecFields(fs, body, {}, ZeroFields(fs))
    case Ok((live, vs)) => e == None && Abs(TStruct(fs), out) == VStruct(live, vs)
    case Err(x) => e == Some(x)
  }

  /** Warm equals cold: whatever the receiver holds, DecodeBodyInto ends with the verdict and the value of a decode into
      a new one, as long as the capacities it can fall back on came from MakeSlice; and they still do afterwards, also
      after a failure. */
  lemma {:induction false} WarmIsCold(fs: seq<Field>, s: seq<byte>, m: Mem)
    requires Fit(TStruct(fs), m, true)
    ensures Fit(TStruct(fs), Afterwards(fs, s, m).0, false)
    ensures LikeNew(fs, s, Afterwards(fs, s, m).0, Afterwards(fs, s, m).1)
  {
    var t := TStruct(fs);
    var clean := Reset(t, m);
    ResetHolds(t, m);
    CellsHeld(t, clean);
    WarmCells(fs, s, Live(fs, clean), Cells(fs, clean));
  }

  /** What a Reset of a slice does to its slots: those in use let go of every pointer, map and slice and reset their
      structs; the spare ones stay as they are. */
  lemma {:induction false} SlotsDropped(elem: Ty, size: nat, slots: seq<Mem>, len: nat)
    requires len <= |slots|
    ensures var out := Reset(TSlice(elem, size), MSlice(slots, len));
            && out.MSlice? && out.len == 0 && |out.slots| == |slots| && out.slots[len..] == slots[len..]
            && forall i :: 0 <= i < len ==>
                 && (elem.TOpt? ==> out.slots[i] == MNil)
                 && (elem.TMap? ==> out.slots[i] == MMap(map[]))
                 && (elem.TSlice? ==> out.slots[i] == MSlice([], 0))
                 && (elem.TStruct? ==> out.slots[i] == Reset(elem, slots[i]))
  {
    UsedDropped(elem, slots, len);
  }

  lemma {:induction false} UsedDropped(elem: Ty, slots: seq<Mem>, n: nat)
    requires n <= |slots|
    ensures ResetUsed(elem, slots, n)[n..] == slots[n..]
    ensures forall i :: 0 <= i < n ==> ResetUsed(elem, slots, n)[i] == ResetSlot(elem, slots[i])
    decreases n
  {
    hide ResetSlot;
    if n > 0 {
      UsedDropped(elem, slots[1..], n - 1);
    }
  }
}
