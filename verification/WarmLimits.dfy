/** Where warm and cold decoding part: exactly at a receiver that can fall back on capacity MakeSlice would not have
    granted. The body that tells it from a new one reads nothing but empty values up to the oversized slots. */
module WarmLimits {
  import opened Basics
  import opened Varint
  import opened Ops
  import opened Wire
  import opened Schema
  import opened Generated
  import opened Evolution
  import opened RoundTrip
  import opened Warm
  import opened WarmCold

  /** The shortest bytes any receiver of type t accepts. */
  function Bare(t: Ty): seq<byte> {
    match t
    case TFix(width) => LittleEndian(width, 0)
    case TSlice(_, _) => Delim([0])
    case TMap(_, _) => Delim([0])
    case TOpt(_, _) => Delim([0])
    case TStruct(_) => Delim([])
    case _ => [0]
  }

  function Bares(t: Ty, n: nat): seq<byte> { if n == 0 then [] else Bare(t) + Bares(t, n - 1) }

  /** Over any memory, empty values read as such and ask for no capacity. */
  lemma {:induction false} BareReads(t: Ty, m: Mem, rest: seq<byte>, cur: Val)
    ensures DecMem(t, Bare(t) + rest, m).1 == Ok(|Bare(t)|) && DecSlot(t, Bare(t) + rest, m).1 == Ok(|Bare(t)|)
    ensures DecVal(t, Bare(t) + rest, cur).Ok? && DecVal(t, Bare(t) + rest, cur).value.1 == |Bare(t)|
  {
    match t
    case TFix(width) =>
      LittleEndianLength(width, 0);
      PowPositive(width);
      FixedBack(width, 0, rest);
    case TSlice(elem, size) =>
      BareSlice(elem, size, m, rest, cur);
      BareSlice(elem, size, if m.MSlice? then m.(len := 0) else m, rest, cur);
    case TMap(kt, vt) =>
      BareMap(kt, vt, m, rest, cur);
      BareMap(kt, vt, MMap(map[]), rest, cur);
    case TOpt(target, elide) =>
      BareOpt(target, elide, m, false, rest, cur);
      BareOpt(target, elide, m, true, rest, cur);
    case TStruct(fs) =>
      BareStruct(fs, m, rest, cur);
      BareStruct(fs, Reset(t, m), rest, cur);
    case _ => BareLeaf(t, m, rest, cur);
  }

  lemma {:induction false} BareLeaf(t: Ty, m: Mem, rest: seq<byte>, cur: Val)
    requires t.TBool? || t.TInt? || t.TStr? || t.TCustom?
    ensures DecMem(t, [0] + rest, m).1 == Ok(1)
    ensures DecVal(t, [0] + rest, cur).Ok? && DecVal(t, [0] + rest, cur).value.1 == 1
  {
    assert Uvarint(0) == [0] && Delim([]) == [0] + [];
    ReadBack(0, rest);
    DelimBack([], rest);
    assert [0] + [] == [0];
  }

  lemma {:induction false} EmptyRegion(rest: seq<byte>)
    ensures DelimAt(Delim([0]) + rest) == Ok(([0], |Delim([0])|)) && CountAt([0]) == Ok((0, 1))
  {
    DelimBack([0], rest);
    CountBack(0, []);
    assert Uvarint(0) + [] == [0];
  }

  lemma {:induction false} BareSlice(elem: Ty, size: nat, m: Mem, rest: seq<byte>, cur: Val)
    ensures DecSlice(elem, size, Delim([0]) + rest, m).1 == Ok(|Delim([0])|)
    ensures DecVal(TSlice(elem, size), Delim([0]) + rest, cur).Ok?
    ensures DecVal(TSlice(elem, size), Delim([0]) + rest, cur).value.1 == |Delim([0])|
  {
    hide DelimAt, CountAt, DecSlots, DecElems;
    EmptyRegion(rest);
    SliceVal(elem, size, Delim([0]) + rest, cur);
  }

  lemma {:induction false} BareMap(kt: KeyTy, vt: Ty, m: Mem, rest: seq<byte>, cur: Val)
    ensures DecMap(kt, vt, Delim([0]) + rest, m).1 == Ok(|Delim([0])|)
    ensures DecVal(TMap(kt, vt), Delim([0]) + rest, cur).Ok?
    ensures DecVal(TMap(kt, vt), Delim([0]) + rest, cur).value.1 == |Delim([0])|
  {
    hide DelimAt, CountAt;
    EmptyRegion(rest);
    MapVal(kt, vt, Delim([0]) + rest, cur);
  }

  lemma {:induction false} BareOpt(target: Ty, elide: bool, m: Mem, keep: bool, rest: seq<byte>, cur: Val)
    ensures DecPtr(target, elide, Delim([0]) + rest, m, keep).1 == Ok(|Delim([0])|)
    ensures DecVal(TOpt(target, elide), Delim([0]) + rest, cur).Ok?
    ensures DecVal(TOpt(target, elide), Delim([0]) + rest, cur).value.1 == |Delim([0])|
  {
    hide DelimAt, DecPointee, DecInline;
    EmptyRegion(rest);
    OptVal(target, elide, Delim([0]) + rest, cur);
  }

  lemma {:induction false} BareStruct(fs: seq<Field>, m: Mem, rest: seq<byte>, cur: Val)
    ensures DecStruct(fs, Delim([]) + rest, m).1 == Ok(|Delim([])|)
    ensures DecVal(TStruct(fs), Delim([]) + rest, cur).Ok?
    ensures DecVal(TStruct(fs), Delim([]) + rest, cur).value.1 == |Delim([])|
  {
    hide DelimAt;
    DelimBack([], rest);
  }

  lemma {:induction false} BareShort(t: Ty)
    requires GoodTy(t)
    ensures 1 <= |Bare(t)| <= 8
  {
    if t.TFix? {
      LittleEndianLength(t.width, 0);
    }
  }

  lemma {:induction false} BaresShort(t: Ty, n: nat)
    requires GoodTy(t)
    ensures n <= |Bares(t, n)| <= 8 * n
  {
    hide Bare;
    if n > 0 {
      BareShort(t);
      BaresShort(t, n - 1);
    }
  }

  /** Empty elements, then bytes w for the last slot. */
  lemma {:induction false} SlotsUpTo(t: Ty, slots: seq<Mem>, w: seq<byte>)
    requires |slots| > 0 && DecSlot(t, w, slots[|slots| - 1]).1 == Ok(|w|)
    ensures DecSlots(t, slots, Bares(t, |slots| - 1) + w).1 == Ok(|Bares(t, |slots| - 1) + w|)
    decreases |slots|
  {
    hide DecSlot, DecSlots, Bare, Bares;
    var n := |slots| - 1;
    BaresStep(t, n, w);
    if n == 0 {
      OneSlot(t, slots, w);
    } else {
      assert slots[1..][n - 1] == slots[n];
      SlotsUpTo(t, slots[1..], w);
      SlotsMore(t, slots, Bares(t, n - 1) + w);
    }
  }

  lemma {:induction false} SlotsMore(t: Ty, slots: seq<Mem>, rest: seq<byte>)
    requires |slots| > 0 && DecSlots(t, slots[1..], rest).1 == Ok(|rest|)
    ensures DecSlots(t, slots, Bare(t) + rest).1 == Ok(|Bare(t) + rest|)
  {
    hide DecSlot, DecSlots, Bare;
    BareReads(t, slots[0], rest, VNil);
    Pieces(Bare(t), rest);
    SlotsTurn(t, slots, Bare(t) + rest, DecSlot(t, Bare(t) + rest, slots[0]).0, |Bare(t)|);
  }

  lemma {:induction false} BaresStep(t: Ty, n: nat, w: seq<byte>)
    ensures n == 0 ==> Bares(t, n) + w == w
    ensures n > 0 ==> Bares(t, n) + w == Bare(t) + (Bares(t, n - 1) + w)
    ensures n > 0 ==> (Bare(t) + (Bares(t, n - 1) + w))[|Bare(t)|..] == Bares(t, n - 1) + w
  {
    hide Bare;
  }

  lemma {:induction false} OneSlot(t: Ty, slots: seq<Mem>, w: seq<byte>)
    requires |slots| == 1 && DecSlot(t, w, slots[0]).1 == Ok(|w|)
    ensures DecSlots(t, slots, w).1 == Ok(|w|)
  {
    hide DecSlot;
    assert w[|w|..] == [];
    assert DecSlots(t, slots[1..], []).1 == Ok(0);
  }

  lemma {:induction false} ElemsUpTo(t: Ty, n: nat, w: seq<byte>, e: Error)
    requires DecVal(t, w, Schema.Zero(t)) == Err(e)
    ensures DecElems(t, n + 1, Bares(t, n) + w) == Err(e)
    decreases n
  {
    hide DecVal, Bare, Bares;
    BaresStep(t, n, w);
    if n > 0 {
      var rest := Bares(t, n - 1) + w;
      BareReads(t, MNil, rest, Schema.Zero(t));
      ElemsTurn(t, n + 1, Bare(t) + rest, DecVal(t, Bare(t) + rest, Schema.Zero(t)).value.0, |Bare(t)|);
      ElemsUpTo(t, n - 1, w, e);
    }
  }

  /** The least count over the budget, not above n. */
  function FirstOver(n: nat, size: nat): (c: nat)
    requires OverBudget(n, size)
    ensures 0 < c <= n && OverBudget(c, size) && !OverBudget(c - 1, size) && c <= MAX_ALLOC + 1
  {
    if OverBudget(n - 1, size) then FirstOver(n - 1, size) else n
  }

  /** A slice of n empty elements and one more of bytes w. */
  function Listed(t: Ty, n: nat, w: seq<byte>): seq<byte> { Delim(Uvarint(n + 1) + (Bares(t, n) + w)) }

  /** Bytes that a receiver with an oversized capacity in reach accepts and a new one refuses. */
  ghost function Witness(t: Ty, m: Mem, clean: bool): seq<byte>
    requires !Fit(t, m, clean)
    decreases m, 1
  {
    match t
    case TSlice(elem, size) =>
      if |m.slots| > 0 && OverBudget(|m.slots|, size) then Listed(elem, FirstOver(|m.slots|, size) - 1, Bare(elem))
      else
        var i :| 0 <= i < |m.slots| && !FitSlot(elem, m.slots[i], clean && i < m.len);
        Listed(elem, i, SlotWitness(elem, m.slots[i], clean && i < m.len))
    case TStruct(fs) => Delim(BodyWitness(fs, m, clean))
  }

  ghost function SlotWitness(t: Ty, m: Mem, cleared: bool): seq<byte>
    requires !FitSlot(t, m, cleared)
    decreases m, 3
  {
    match t
    case TStruct(_) => Witness(t, m, true)
    case TSlice(_, _) => Witness(t, m, false)
    case TOpt(target, _) =>
      if target.TStruct? then Delim([1] + BodyWitness(target.fields, m.target, true)) else []
  }

  ghost function BodyWitness(fs: seq<Field>, m: Mem, clean: bool): seq<byte>
    requires !Fit(TStruct(fs), m, clean)
    decreases m, 0
  {
    var i :| 0 <= i < |fs| && !FitCell(fs[i], m.cells[i], clean);
    FieldKey(fs[i]) + Witness(fs[i].ty, m.cells[i], clean)
  }

  /** A type nested at most d levels deep. */
  predicate Nested(t: Ty, d: nat)
    decreases d
  {
    match t
    case TSlice(elem, _) => d > 0 && Nested(elem, d - 1)
    case TMap(_, vt) => d > 0 && Nested(vt, d - 1)
    case TOpt(target, _) => d > 0 && Nested(target, d - 1)
    case TStruct(fs) => d > 0 && forall i :: 0 <= i < |fs| ==> Nested(fs[i].ty, d - 1)
    case _ => true
  }

  const DEEPEST: nat := 0x1_0000_0000
  // more than one level of a witness adds
  const LEVEL: nat := 0x1000_0000

  lemma {:induction false} DelimShort(body: seq<byte>)
    requires |body| < TWO_64
    ensures |Delim(body)| <= |body| + 10
  {
    UvarintLength(|body|);
  }

  lemma {:induction false} ListedShort(t: Ty, n: nat, w: seq<byte>)
    requires GoodTy(t) && n <= MAX_ALLOC && |w| < TWO_63
    ensures 1 <= |Uvarint(n + 1) + (Bares(t, n) + w)| <= |w| + 8 * n + 10
    ensures 1 <= |Listed(t, n, w)| <= |w| + 8 * n + 20
  {
    hide Bares;
    UvarintLength(n + 1);
    BaresShort(t, n);
    DelimShort(Uvarint(n + 1) + (Bares(t, n) + w));
  }

  lemma {:induction false} WitnessShort(t: Ty, m: Mem, clean: bool, d: nat)
    requires GoodTy(t) && !Fit(t, m, clean) && Nested(t, d) && d <= DEEPEST
    ensures 1 <= |Witness(t, m, clean)| <= d * LEVEL
    decreases m, 1
  {
    hide Listed, Bare, Bares;
    match t
    case TSlice(elem, size) =>
      if |m.slots| > 0 && OverBudget(|m.slots|, size) {
        BareShort(elem);
        ListedShort(elem, FirstOver(|m.slots|, size) - 1, Bare(elem));
      } else {
        var i :| 0 <= i < |m.slots| && !FitSlot(elem, m.slots[i], clean && i < m.len) &&
          Witness(t, m, clean) == Listed(elem, i, SlotWitness(elem, m.slots[i], clean && i < m.len));
        SlotWitnessShort(elem, m.slots[i], clean && i < m.len, d - 1);
        ListedShort(elem, i, SlotWitness(elem, m.slots[i], clean && i < m.len));
      }
    case TStruct(fs) =>
      BodyWitnessShort(fs, m, clean, d - 1);
      DelimShort(BodyWitness(fs, m, clean));
  }

  lemma {:induction false} SlotWitnessShort(t: Ty, m: Mem, cleared: bool, d: nat)
    requires GoodTy(t) && !FitSlot(t, m, cleared) && Nested(t, d) && d < DEEPEST && (t.TOpt? ==> t.target.TStruct?)
    ensures 1 <= |SlotWitness(t, m, cleared)| <= d * LEVEL + 40
    decreases m, 3
  {
    match t
    case TStruct(_) => WitnessShort(t, m, true, d);
    case TSlice(_, _) => WitnessShort(t, m, false, d);
    case TOpt(target, _) =>
      BodyWitnessShort(target.fields, m.target, true, d - 2);
      DelimShort([1] + BodyWitness(target.fields, m.target, true));
  }

  lemma {:induction false} KeyShort(f: Field)
    requires GoodField(f)
    ensures |FieldKey(f)| <= 10
  {
    UvarintLength(f.tag * 8 + WireOf(f.ty));
  }

  lemma {:induction false} BodyWitnessShort(fs: seq<Field>, m: Mem, clean: bool, d: nat)
    requires GoodFields(fs) && !Fit(TStruct(fs), m, clean) && d < DEEPEST
             && forall i :: 0 <= i < |fs| ==> Nested(fs[i].ty, d)
    ensures 1 <= |BodyWitness(fs, m, clean)| <= d * LEVEL + 10
    decreases m, 0
  {
    var i :| 0 <= i < |fs| && !FitCell(fs[i], m.cells[i], clean) &&
      BodyWitness(fs, m, clean) == FieldKey(fs[i]) + Witness(fs[i].ty, m.cells[i], clean);
    KeyShort(fs[i]);
    WitnessShort(fs[i].ty, m.cells[i], clean, d);
  }

  /** What a reader finds in front of it: the region, the count, and the elements behind it. */
  lemma {:induction false} ListedAt(elem: Ty, n: nat, w: seq<byte>, rest: seq<byte>)
    requires GoodTy(elem) && n <= MAX_ALLOC && 1 <= |w| < TWO_63
    ensures var body := Uvarint(n + 1) + (Bares(elem, n) + w);
            && DelimAt(Listed(elem, n, w) + rest) == Ok((body, |Listed(elem, n, w)|))
            && CountAt(body) == Ok((n + 1, |Uvarint(n + 1)|)) && body[|Uvarint(n + 1)|..] == Bares(elem, n) + w
  {
    hide Bares, Bare, DelimAt, CountAt, GoodTy;
    ListedShort(elem, n, w);
    BaresShort(elem, n);
    DelimBack(Uvarint(n + 1) + (Bares(elem, n) + w), rest);
    CountBack(n + 1, Bares(elem, n) + w);
    Pieces(Uvarint(n + 1), Bares(elem, n) + w);
  }

  lemma {:induction false} ListedAccepted(elem: Ty, size: nat, m: Mem, n: nat, w: seq<byte>, rest: seq<byte>)
    requires GoodTy(elem) && m.MSlice? && n < |m.slots| && n <= MAX_ALLOC && 1 <= |w| < TWO_63
    requires DecSlot(elem, w, m.slots[n]).1 == Ok(|w|)
    ensures DecSlice(elem, size, Listed(elem, n, w) + rest, m).1 == Ok(|Listed(elem, n, w)|)
  {
    hide DecSlot, DecSlots, DecCounted, Bares, Bare, DelimAt, CountAt, OverBudget, GoodTy, Listed;
    ListedAt(elem, n, w, rest);
    SlotsUpTo(elem, m.slots[..n + 1], w);
    AllCounted(elem, size, Uvarint(n + 1) + (Bares(elem, n) + w), m, n + 1, |Uvarint(n + 1)|);
  }

  lemma {:induction false} AllCounted(elem: Ty, size: nat, body: seq<byte>, m: Mem, count: nat, k: nat)
    requires m.MSlice? && 0 < count <= |m.slots| && CountAt(body) == Ok((count, k)) && k <= |body|
    requires DecSlots(elem, m.slots[..count], body[k..]).1 == Ok(|body[k..]|)
    ensures DecCounted(elem, size, body, m).1 == Ok(|body|)
  {
    hide DecSlots, CountAt, OverBudget;
  }

  lemma {:induction false} ListedRefused(elem: Ty, size: nat, n: nat, w: seq<byte>, rest: seq<byte>, cur: Val)
    requires GoodTy(elem) && n <= MAX_ALLOC && 1 <= |w| < TWO_63
    requires OverBudget(n + 1, size) || DecVal(elem, w, Schema.Zero(elem)) == Err(AllocTooLarge)
    ensures DecVal(TSlice(elem, size), Listed(elem, n, w) + rest, cur) == Err(AllocTooLarge)
  {
    hide DecVal, DecElems, Bares, Bare, DelimAt, CountAt, OverBudget, GoodTy, Listed, CountedVal;
    ListedAt(elem, n, w, rest);
    SliceVal(elem, size, Listed(elem, n, w) + rest, cur);
    if !OverBudget(n + 1, size) {
      ElemsUpTo(elem, n, w, AllocTooLarge);
    }
    CountedRefused(elem, size, Uvarint(n + 1) + (Bares(elem, n) + w), cur, n + 1, |Uvarint(n + 1)|);
  }

  lemma {:induction false} CountedRefused(elem: Ty, size: nat, body: seq<byte>, cur: Val, count: nat, k: nat)
    requires count > 0 && CountAt(body) == Ok((count, k)) && k <= |body|
    requires OverBudget(count, size) || DecElems(elem, count, body[k..]) == Err(AllocTooLarge)
    ensures CountedVal(elem, size, body, cur) == Err(AllocTooLarge)
  {
    hide DecElems, CountAt, OverBudget;
  }

  /** The memory decoding starts from. */
  function Over(t: Ty, m: Mem, clean: bool): Mem { if clean then Reset(t, m) else m }

  lemma {:induction false} ResetFresh(t: Ty)
    ensures Reset(t, Fresh(t)) == Fresh(t)
    decreases t
  {
    if t.TStruct? {
      var fs := t.fields;
      forall i | 0 <= i < |fs| ensures ResetCells(fs, FreshCells(fs))[i] == FreshCells(fs)[i] {
        ResetCellsAt(fs, FreshCells(fs), i);
        ResetFresh(fs[i].ty);
      }
      assert ResetCells(fs, FreshCells(fs)) == FreshCells(fs);
    }
  }

  lemma {:induction false} ResetTwice(t: Ty, m: Mem)
    ensures Reset(t, Reset(t, m)) == Reset(t, m)
    decreases m
  {
    ResetFresh(t);
    if t.TStruct? && m.MStruct? && |m.cells| == |t.fields| {
      var fs, once := t.fields, ResetCells(t.fields, m.cells);
      forall i | 0 <= i < |fs| ensures ResetCells(fs, once)[i] == once[i] {
        ResetCellsAt(fs, m.cells, i);
        ResetCellsAt(fs, once, i);
        ResetTwice(fs[i].ty, m.cells[i]);
      }
      assert ResetCells(fs, once) == once;
    }
  }

  lemma {:induction false} WitnessAccepted(t: Ty, m: Mem, clean: bool, d: nat, rest: seq<byte>)
    requires GoodTy(t) && !Fit(t, m, clean) && Nested(t, d) && d <= DEEPEST
    ensures DecMem(t, Witness(t, m, clean) + rest, Over(t, m, clean)).1 == Ok(|Witness(t, m, clean)|)
    decreases m, 1
  {
    var mm := Over(t, m, clean);
    WitnessShort(t, m, clean, d);
    hide DecSlice, DecStruct, DecSlot, Listed, Bare, BodyWitness, ResetUsed, Nested;
    match t
    case TSlice(elem, size) => SliceAccepted(elem, size, m, clean, d, rest);
    case TStruct(fs) => StructAccepted(fs, m, clean, d, rest);
  }

  lemma {:induction false} SliceAccepted(elem: Ty, size: nat, m: Mem, clean: bool, d: nat, rest: seq<byte>)
    requires GoodTy(TSlice(elem, size)) && !Fit(TSlice(elem, size), m, clean) && Nested(TSlice(elem, size), d)
             && d <= DEEPEST
    ensures var w := Witness(TSlice(elem, size), m, clean);
            DecSlice(elem, size, w + rest, Over(TSlice(elem, size), m, clean)).1 == Ok(|w|)
    decreases m, 0, 1
  {
    hide DecSlice, DecSlot, Listed, Bares, ResetUsed;
    var mm := Over(TSlice(elem, size), m, clean);
    if |m.slots| > 0 && OverBudget(|m.slots|, size) {
      var n := FirstOver(|m.slots|, size) - 1;
      BareShort(elem);
      BareReads(elem, mm.slots[n], [], VNil);
      assert Bare(elem) + [] == Bare(elem);
      ListedAccepted(elem, size, mm, n, Bare(elem), rest);
    } else {
      var i :| 0 <= i < |m.slots| && !FitSlot(elem, m.slots[i], clean && i < m.len) &&
        Witness(TSlice(elem, size), m, clean) == Listed(elem, i, SlotWitness(elem, m.slots[i], clean && i < m.len));
      var w := SlotWitness(elem, m.slots[i], clean && i < m.len);
      SlotWitnessShort(elem, m.slots[i], clean && i < m.len, d - 1);
      SlotAccepted(elem, m.slots[i], clean && i < m.len, d - 1);
      if clean {
        ResetUsedAt(elem, m.slots, Min(m.len, |m.slots|), i);
      }
      ListedAccepted(elem, size, mm, i, w, rest);
    }
  }

  lemma {:induction false} SlotAccepted(t: Ty, m: Mem, cleared: bool, d: nat)
    requires GoodTy(t) && !FitSlot(t, m, cleared) && Nested(t, d) && d < DEEPEST && (t.TOpt? ==> t.target.TStruct?)
    ensures DecSlot(t, SlotWitness(t, m, cleared), if cleared then ResetSlot(t, m) else m).1
            == Ok(|SlotWitness(t, m, cleared)|)
    decreases m, 3
  {
    var w := SlotWitness(t, m, cleared);
    assert w + [] == w;
    match t
    case TStruct(_) =>
      WitnessAccepted(t, m, true, d, []);
      ResetTwice(t, m);
    case TSlice(elem, size) =>
      WitnessAccepted(t, m, false, d, []);
      SliceLength(elem, size, w, m);
    case TOpt(target, elide) => PointerAccepted(target, elide, m, d);
  }

  /** The length of what a slice holds does not matter to decoding over it. */
  lemma {:induction false} SliceLength(elem: Ty, size: nat, s: seq<byte>, m: Mem)
    requires m.MSlice?
    ensures DecSlice(elem, size, s, m.(len := 0)).1 == DecSlice(elem, size, s, m).1
  {
    hide DelimAt, DecSlots, CountAt, OverBudget;
  }

  lemma {:induction false} PointerAccepted(target: Ty, elide: bool, m: Mem, d: nat)
    requires GoodTy(target) && target.TStruct? && m.MNew? && !Fit(target, m.target, true) && d < DEEPEST
             && Nested(TOpt(target, elide), d)
    ensures var w := Delim([1] + BodyWitness(target.fields, m.target, true));
            DecPtr(target, elide, w, m, true).1 == Ok(|w|)
    decreases m, 0, 2
  {
    var body := BodyWitness(target.fields, m.target, true);
    BodyWitnessShort(target.fields, m.target, true, d - 2);
    BodyAccepted(target.fields, m.target, true, d - 2);
    PresentAccepted(target, elide, m, body);
    hide BodyWitness, DelimAt, DecPresent, Fit, Nested;
    DelimBack([1] + body, []);
    assert Delim([1] + body) + [] == Delim([1] + body);
  }

  lemma {:induction false} PresentAccepted(target: Ty, elide: bool, m: Mem, body: seq<byte>)
    requires target.TStruct? && m.MNew?
    requires var clean := Reset(target, m.target);
             DecCells(target.fields, body, Live(target.fields, clean), Cells(target.fields, clean)).1 == None
    ensures DecPresent(target, elide, [1] + body, m, true).1 == Ok(|[1] + body|)
  {
    hide DecCells, Reset, Live, Cells;
    assert ([1] + body)[1..] == body && ([1] + body)[0] == 1;
  }

  lemma {:induction false} StructAccepted(fs: seq<Field>, m: Mem, clean: bool, d: nat, rest: seq<byte>)
    requires GoodFields(fs) && !Fit(TStruct(fs), m, clean) && Nested(TStruct(fs), d) && d <= DEEPEST
    ensures var w := Delim(BodyWitness(fs, m, clean)); DecStruct(fs, w + rest, Over(TStruct(fs), m, clean)).1 == Ok(|w|)
    decreases m, 0, 2
  {
    var body := BodyWitness(fs, m, clean);
    BodyWitnessShort(fs, m, clean, d - 1);
    BodyAccepted(fs, m, clean, d - 1);
    hide BodyWitness, DelimAt, DecCells, Reset;
    DelimBack(body, rest);
  }

  lemma {:induction false} BodyAccepted(fs: seq<Field>, m: Mem, clean: bool, d: nat)
    requires GoodFields(fs) && !Fit(TStruct(fs), m, clean) && d < DEEPEST
             && forall i :: 0 <= i < |fs| ==> Nested(fs[i].ty, d)
    ensures var mm := Over(TStruct(fs), m, clean);
            DecCells(fs, BodyWitness(fs, m, clean), Live(fs, mm), Cells(fs, mm)).1 == None
    decreases m, 0, 1
  {
    var mm := Over(TStruct(fs), m, clean);
    var i :| 0 <= i < |fs| && !FitCell(fs[i], m.cells[i], clean) &&
      BodyWitness(fs, m, clean) == FieldKey(fs[i]) + Witness(fs[i].ty, m.cells[i], clean);
    var f, w := fs[i], Witness(fs[i].ty, m.cells[i], clean);
    assert GoodField(f) && w + [] == w;
    WitnessAccepted(f.ty, m.cells[i], clean, d, []);
    if clean {
      ResetCellsAt(fs, m.cells, i);
    }
    assert Cells(fs, mm)[i] == Over(f.ty, m.cells[i], clean);
    OneField(fs, i, w, Live(fs, mm), Cells(fs, mm));
  }

  /** A body of one field. */
  lemma {:induction false} OneField(fs: seq<Field>, i: nat, w: seq<byte>, live: set<nat>, cells: seq<Mem>)
    requires GoodFields(fs) && i < |fs| && |cells| == |fs| && DecCell(fs[i], w, cells[i]).1 == Ok(|w|)
    ensures DecCells(fs, FieldKey(fs[i]) + w, live, cells).1 == None
  {
    hide DecCell, TagAt, SkipAt;
    OnlyOne(fs, fs[i].tag);
    hide Find;
    var f, key := fs[i], FieldKey(fs[i]);
    assert GoodField(f);
    TagBack(f.tag, WireOf(f.ty), w);
    Pieces(key, w);
    assert (key + w)[|key| + |w|..] == [];
    var m := DecCell(f, w, cells[i]).0;
    assert DecCells(fs, [], live + f.hops, cells[i := m]).1 == None;
  }

  lemma {:induction false} WitnessRefused(t: Ty, m: Mem, clean: bool, d: nat, rest: seq<byte>, cur: Val)
    requires GoodTy(t) && !Fit(t, m, clean) && Nested(t, d) && d <= DEEPEST
    ensures DecVal(t, Witness(t, m, clean) + rest, cur) == Err(AllocTooLarge)
    decreases m, 1
  {
    hide Listed, Bare, DelimAt, DecElems, DecVal, OverBudget;
    match t
    case TSlice(elem, size) =>
      if |m.slots| > 0 && OverBudget(|m.slots|, size) {
        BareShort(elem);
        ListedRefused(elem, size, FirstOver(|m.slots|, size) - 1, Bare(elem), rest, cur);
      } else {
        var i :| 0 <= i < |m.slots| && !FitSlot(elem, m.slots[i], clean && i < m.len) &&
          Witness(t, m, clean) == Listed(elem, i, SlotWitness(elem, m.slots[i], clean && i < m.len));
        SlotWitnessShort(elem, m.slots[i], clean && i < m.len, d - 1);
        SlotRefused(elem, m.slots[i], clean && i < m.len, d - 1);
        Countable(i, |m.slots|, size);
        ListedRefused(elem, size, i, SlotWitness(elem, m.slots[i], clean && i < m.len), rest, cur);
      }
    case TStruct(fs) =>
      var body := BodyWitness(fs, m, clean);
      BodyWitnessShort(fs, m, clean, d - 1);
      BodyRefused(fs, m, clean, d - 1, if cur.VStruct? then cur.live else {}, Held(fs, cur));
      DelimBack(body, rest);
      StructVal(fs, Witness(t, m, clean) + rest, cur);
  }

  lemma {:induction false} Countable(i: nat, n: nat, size: nat)
    requires i < n && !OverBudget(n, size)
    ensures i <= MAX_ALLOC
  {
  }

  lemma {:induction false} StructVal(fs: seq<Field>, s: seq<byte>, cur: Val)
    requires DelimAt(s).Ok?
    requires DecFields(fs, DelimAt(s).value.0, if cur.VStruct? then cur.live else {}, Held(fs, cur))
             == Err(AllocTooLarge)
    ensures DecVal(TStruct(fs), s, cur) == Err(AllocTooLarge)
  {
    hide DelimAt, DecFields;
  }

  lemma {:induction false} SlotRefused(t: Ty, m: Mem, cleared: bool, d: nat)
    requires GoodTy(t) && !FitSlot(t, m, cleared) && Nested(t, d) && d < DEEPEST && (t.TOpt? ==> t.target.TStruct?)
    ensures DecVal(t, SlotWitness(t, m, cleared), Schema.Zero(t)) == Err(AllocTooLarge)
    decreases m, 3
  {
    hide DecVal, DecFields, DelimAt;
    var w := SlotWitness(t, m, cleared);
    assert w + [] == w;
    match t
    case TStruct(_) => WitnessRefused(t, m, true, d, [], Schema.Zero(t));
    case TSlice(_, _) => WitnessRefused(t, m, false, d, [], Schema.Zero(t));
    case TOpt(target, elide) =>
      var fs := target.fields;
      var body := BodyWitness(fs, m.target, true);
      BodyWitnessShort(fs, m.target, true, d - 2);
      BodyRefused(fs, m.target, true, d - 2, {}, ZeroFields(fs));
      hide BodyWitness;
      DelimBack([1] + body, []);
      assert ([1] + body)[1..] == body;
      OptVal(target, elide, w, Schema.Zero(t));
  }

  lemma {:induction false} BodyRefused(fs: seq<Field>, m: Mem, clean: bool, d: nat, live: set<nat>, vs: seq<Val>)
    requires GoodFields(fs) && !Fit(TStruct(fs), m, clean) && d < DEEPEST
             && forall i :: 0 <= i < |fs| ==> Nested(fs[i].ty, d)
    requires |vs| == |fs|
    ensures DecFields(fs, BodyWitness(fs, m, clean), live, vs) == Err(AllocTooLarge)
    decreases m, 0
  {
    var i :| 0 <= i < |fs| && !FitCell(fs[i], m.cells[i], clean) &&
      BodyWitness(fs, m, clean) == FieldKey(fs[i]) + Witness(fs[i].ty, m.cells[i], clean);
    var f, w := fs[i], Witness(fs[i].ty, m.cells[i], clean);
    hide DecVal, DecFields, Witness;
    assert GoodField(f) && w + [] == w;
    WitnessRefused(f.ty, m.cells[i], clean, d, [], vs[i]);
    OneFieldRefused(fs, i, w, live, vs);
  }

  lemma {:induction false} OneFieldRefused(fs: seq<Field>, i: nat, w: seq<byte>, live: set<nat>, vs: seq<Val>)
    requires GoodFields(fs) && i < |fs| && |vs| == |fs| && !fs[i].idRef
             && DecVal(fs[i].ty, w, vs[i]) == Err(AllocTooLarge)
    ensures DecFields(fs, FieldKey(fs[i]) + w, live, vs) == Err(AllocTooLarge)
  {
    hide DecVal, TagAt, SkipAt;
    OnlyOne(fs, fs[i].tag);
    hide Find;
    assert GoodField(fs[i]);
    TagBack(fs[i].tag, WireOf(fs[i].ty), w);
    Pieces(FieldKey(fs[i]), w);
  }

  /** For a value of any type in use: decoding over it agrees with decoding over the value it holds, on every input,
      exactly when the capacities it can fall back on are within the budget. */
  lemma {:induction false} CapacityDecides(t: Ty, m: Mem)
    requires GoodTy(t) && Nested(t, DEEPEST)
    ensures (forall s :: Matches(t, DecVal(t, s, Abs(t, m)), DecMem(t, s, m))) <==> Fit(t, m, false)
  {
    hide Fit, DecVal, DecMem, Witness;
    if Fit(t, m, false) {
      forall s ensures Matches(t, DecVal(t, s, Abs(t, m)), DecMem(t, s, m)) {
        WarmVal(t, s, m);
      }
    } else {
      var w := Witness(t, m, false);
      assert w + [] == w;
      WitnessAccepted(t, m, false, DEEPEST, []);
      WitnessRefused(t, m, false, DEEPEST, [], Abs(t, m));
      assert !Matches(t, DecVal(t, w, Abs(t, m)), DecMem(t, w, m));
    }
  }

  /** For a receiver of DecodeBodyInto: warm equals cold on every input exactly when, after the Reset, the capacities in
      reach are within the budget. */
  lemma {:induction false} ReceiverDecides(fs: seq<Field>, m: Mem)
    requires GoodFields(fs) && Nested(TStruct(fs), DEEPEST)
    ensures (forall s :: LikeNew(fs, s, Afterwards(fs, s, m).0, Afterwards(fs, s, m).1)) <==> Fit(TStruct(fs), m, true)
  {
    hide Fit, DecFields, DecCells, BodyWitness, Reset;
    if Fit(TStruct(fs), m, true) {
      forall s ensures LikeNew(fs, s, Afterwards(fs, s, m).0, Afterwards(fs, s, m).1) {
        WarmIsCold(fs, s, m);
      }
    } else {
      var w := BodyWitness(fs, m, true);
      BodyAccepted(fs, m, true, DEEPEST - 1);
      BodyRefused(fs, m, true, DEEPEST - 1, {}, ZeroFields(fs));
      assert !LikeNew(fs, w, Afterwards(fs, w, m).0, Afterwards(fs, w, m).1);
    }
  }
}
