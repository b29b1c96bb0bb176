/** Decoding into a receiver that has been used before.

    Memory keeps what values forget: the spare slots of a slice and whatever an earlier decode, complete or not, left in
    them. Reset and the decode loop are modelled on memory, and Abs says which value a piece of memory holds. */
module Warm {
  import opened Basics
  import opened Wire
  import opened Schema
  import opened Generated

  datatype Mem =
    | MNil
    | MNew(target: Mem)
    | MBool(b: bool)
    | MInt(i: int)
    | MBits(bits: nat)
    | MStr(s: seq<byte>)
    // |slots| is the capacity
    | MSlice(slots: seq<Mem>, len: nat)
    | MMap(entries: map<Key, Mem>)
    | MStruct(live: set<nat>, cells: seq<Mem>)

  /** The zero value of a type, freshly allocated. */
  function Fresh(t: Ty): Mem
    decreases t, 1
  {
    match t
    case TBool => MBool(false)
    case TInt(_) => MInt(0)
    case TFix(_) => MBits(0)
    case TStr => MStr([])
    case TCustom(_, _) => MStr([])
    case TSlice(_, _) => MSlice([], 0)
    case TMap(_, _) => MMap(map[])
    case TOpt(_, _) => MNil
    case TStruct(fs) => MStruct({}, FreshCells(fs))
  }

  function FreshCells(fs: seq<Field>): (cells: seq<Mem>)
    ensures |cells| == |fs|
    ensures forall i :: 0 <= i < |fs| ==> cells[i] == FreshCell(fs[i])
    decreases fs, 2
  {
    if |fs| == 0 then [] else [FreshCell(fs[0])] + FreshCells(fs[1..])
  }

  function FreshCell(f: Field): Mem
    decreases f, 0
  {
    if f.idRef then MNil else Fresh(f.ty)
  }

  /** The value a receiver of type t holds; spare slots do not count. */
  function Abs(t: Ty, m: Mem): Val
    decreases m, 1
  {
    match (t, m)
    case (TBool, MBool(b)) => VBool(b)
    case (TInt(_), MInt(i)) => VInt(i)
    case (TFix(_), MBits(bits)) => VBits(bits)
    case (TStr, MStr(s)) => VStr(s)
    case (TCustom(_, _), MStr(s)) => VStr(s)
    case (TSlice(elem, _), MSlice(slots, len)) => VSlice(AbsAll(elem, slots, Min(len, |slots|)))
    case (TMap(_, vt), MMap(entries)) => VMap(map k | k in entries :: Abs(vt, entries[k]))
    case (TOpt(target, _), MNew(x)) => VSome(Abs(target, x))
    case (TStruct(fs), MStruct(live, cells)) =>
      if |cells| == |fs| then VStruct(live, AbsCells(fs, cells)) else Schema.Zero(t)
    case _ => Schema.Zero(t)
  }

  function AbsAll(t: Ty, slots: seq<Mem>, n: nat): (vs: seq<Val>)
    requires n <= |slots|
    ensures |vs| == n && forall i :: 0 <= i < n ==> vs[i] == Abs(t, slots[i])
    decreases slots, 0
  {
    if n == 0 then [] else [Abs(t, slots[0])] + AbsAll(t, slots[1..], n - 1)
  }

  function AbsCells(fs: seq<Field>, cells: seq<Mem>): (vs: seq<Val>)
    requires |cells| == |fs|
    ensures |vs| == |fs| && forall i :: 0 <= i < |fs| ==> vs[i] == AbsCell(fs[i], cells[i])
    decreases cells, 0
  {
    if |fs| == 0 then [] else [AbsCell(fs[0], cells[0])] + AbsCells(fs[1..], cells[1..])
  }

  function AbsCell(f: Field, m: Mem): Val
    decreases m, 2
  {
    if !f.idRef then Abs(f.ty, m)
    else if m.MNew? then VSome(Abs(f.ty, m.target))
    else VNil
  }

  /** Every capacity that decoding over m can fall back on is one MakeSlice would have granted; clean: decoding over m
      after a Reset. A map's values, what a pointer field points to and what an id_ref refers to are always new. */
  ghost predicate Fit(t: Ty, m: Mem, clean: bool)
    decreases m, 1
  {
    match (t, m)
    case (TSlice(elem, size), MSlice(slots, len)) =>
      && (|slots| == 0 || !OverBudget(|slots|, size))
      && forall i :: 0 <= i < |slots| ==> FitSlot(elem, slots[i], clean && i < len)
    case (TStruct(fs), MStruct(_, cells)) =>
      |cells| == |fs| ==> forall i :: 0 <= i < |fs| ==> FitCell(fs[i], cells[i], clean)
    case _ => true
  }

  /** A slot is reset before it is decoded into; cleared: a Reset of the whole slice has dropped what it held. */
  ghost predicate FitSlot(t: Ty, m: Mem, cleared: bool)
    decreases m, 3
  {
    match t
    case TStruct(_) => Fit(t, m, true)
    case TSlice(_, _) => cleared || Fit(t, m, false)
    case TOpt(target, _) => cleared || (m.MNew? ==> Fit(target, m.target, true))
    case _ => true
  }

  /** Reset drops what is behind an embedded pointer. */
  ghost predicate FitCell(f: Field, m: Mem, clean: bool)
    decreases m, 2
  {
    f.idRef || (clean && f.hops != {}) || Fit(f.ty, m, clean)
  }

  /** The generated Reset: slices keep their slots, and only those in use are cleared or reset. */
  function Reset(t: Ty, m: Mem): Mem
    decreases m, 1
  {
    match (t, m)
    case (TSlice(elem, _), MSlice(slots, len)) => MSlice(ResetUsed(elem, slots, Min(len, |slots|)), 0)
    case (TStruct(fs), MStruct(_, cells)) =>
      if |cells| == |fs| then MStruct({}, ResetCells(fs, cells)) else Fresh(t)
    case _ => Fresh(t)
  }

  function ResetUsed(t: Ty, slots: seq<Mem>, n: nat): (out: seq<Mem>)
    requires n <= |slots|
    ensures |out| == |slots|
    decreases slots, 0
  {
    if n == 0 then slots else [ResetSlot(t, slots[0])] + ResetUsed(t, slots[1..], n - 1)
  }

  /** Pointers, slices and maps are cleared, structs reset, other elements left alone. */
  function ResetSlot(t: Ty, m: Mem): Mem
    decreases m, 2
  {
    match t
    case TStruct(_) => Reset(t, m)
    case TSlice(_, _) => Fresh(t)
    case TMap(_, _) => Fresh(t)
    case TOpt(_, _) => Fresh(t)
    case _ => m
  }

  /** What is reached through an embedded pointer goes with the pointer. */
  function ResetCells(fs: seq<Field>, cells: seq<Mem>): (out: seq<Mem>)
    requires |cells| == |fs|
    ensures |out| == |fs|
    decreases cells, 0
  {
    if |fs| == 0 then []
    else
      var first := if fs[0].hops == {} && !fs[0].idRef then Reset(fs[0].ty, cells[0]) else FreshCell(fs[0]);
      [first] + ResetCells(fs[1..], cells[1..])
  }

  /** Decoding into memory: the memory afterwards, also after a failure, and the bytes used or the error. */
  function DecMem(t: Ty, s: seq<byte>, m: Mem): (r: (Mem, Result<nat>))
    ensures r.1.Ok? ==> r.1.value <= |s|
    decreases |s|, 1
  {
    match t
    case TBool => (match DecBool(s) case Err(e) => (m, Err(e)) case Ok((b, n)) => (MBool(b), Ok(n)))
    case TInt(x) => (match DecInt(x, s) case Err(e) => (m, Err(e)) case Ok((i, n)) => (MInt(i), Ok(n)))
    case TFix(width) => (match FixedAt(s, width) case Err(e) => (m, Err(e)) case Ok((bits, n)) => (MBits(bits), Ok(n)))
    case TStr => (match DelimAt(s) case Err(e) => (m, Err(e)) case Ok((b, n)) => (MStr(b), Ok(n)))
    case TCustom(_, _) => (match DelimAt(s) case Err(e) => (m, Err(e)) case Ok((b, n)) => (MStr(b), Ok(n)))
    case TSlice(elem, size) => DecSlice(elem, size, s, m)
    case TMap(kt, vt) => DecMap(kt, vt, s, m)
    case TOpt(target, elide) => DecPtr(target, elide, s, m, false)
    case TStruct(fs) => DecStruct(fs, s, m)
  }

  function DecSlice(elem: Ty, size: nat, s: seq<byte>, m: Mem): (r: (Mem, Result<nat>))
    ensures r.1.Ok? ==> r.1.value <= |s|
    decreases |s|, 0
  {
    match DelimAt(s)
    case Err(e) => (m, Err(e))
    case Ok((body, n)) => var (out, r) := DecCounted(elem, size, body, m); (out, EndRegion(r, |body|, n))
  }

  /** Slots are reused when there are enough of them, and asked of MakeSlice otherwise. */
  function DecCounted(elem: Ty, size: nat, body: seq<byte>, m: Mem): (r: (Mem, Result<nat>))
    ensures r.1.Ok? ==> r.1.value <= |body|
    decreases |body|, 4
  {
    match CountAt(body)
    case Err(e) => (m, Err(e))
    case Ok((count, k)) =>
      var slots := if m.MSlice? then m.slots else [];
      if count == 0 then (if m.MSlice? then m else MSlice([], 0), Ok(k))
      else if |slots| < count && OverBudget(count, size) then (MSlice([], 0), Err(AllocTooLarge))
      else
        var room := if |slots| >= count then slots else Blank(elem, count);
        var (used, r) := DecSlots(elem, room[..count], body[k..]);
        (MSlice(used + room[count..], count), match r case Err(e) => Err(e) case Ok(n) => Ok(k + n))
  }

  function DecMap(kt: KeyTy, vt: Ty, s: seq<byte>, m: Mem): (r: (Mem, Result<nat>))
    ensures r.1.Ok? ==> r.1.value <= |s|
    decreases |s|, 0
  {
    match DelimAt(s)
    case Err(e) => (m, Err(e))
    case Ok((body, n)) => var (out, r) := DecListed(kt, vt, body, m); (out, EndRegion(r, |body|, n))
  }

  /** Entries are added to those the map has. */
  function DecListed(kt: KeyTy, vt: Ty, body: seq<byte>, m: Mem): (r: (Mem, Result<nat>))
    ensures r.1.Ok? ==> r.1.value <= |body|
    decreases |body|, 4
  {
    match CountAt(body)
    case Err(e) => (m, Err(e))
    case Ok((count, k)) =>
      var (out, r) := DecPairs(kt, vt, count, body[k..], if m.MMap? then m.entries else map[]);
      (MMap(out), match r case Err(e) => Err(e) case Ok(n) => Ok(k + n))
  }

  function DecStruct(fs: seq<Field>, s: seq<byte>, m: Mem): (r: (Mem, Result<nat>))
    ensures r.1.Ok? ==> r.1.value <= |s|
    decreases |s|, 0
  {
    match DelimAt(s)
    case Err(e) => (m, Err(e))
    case Ok((body, n)) =>
      var (out, r) := DecCells(fs, body, Live(fs, m), Cells(fs, m));
      (out, if r == None then Ok(n) else Err(r.value))
  }

  function Live(fs: seq<Field>, m: Mem): set<nat> { if m.MStruct? && |m.cells| == |fs| then m.live else {} }

  function Cells(fs: seq<Field>, m: Mem): (cells: seq<Mem>)
    ensures |cells| == |fs|
  {
    if m.MStruct? && |m.cells| == |fs| then m.cells else FreshCells(fs)
  }

  /** EndLengthDelim: what is left of the region must be nothing. */
  function EndRegion(r: Result<nat>, left: nat, n: nat): Result<nat> {
    match r
    case Err(e) => Err(e)
    case Ok(used) => if used < left then Err(TrailingBytes) else Ok(n)
  }

  /** MakeSlice. */
  function Blank(t: Ty, count: nat): (slots: seq<Mem>)
    ensures |slots| == count && forall i :: 0 <= i < count ==> slots[i] == Fresh(t)
  {
    if count == 0 then [] else [Fresh(t)] + Blank(t, count - 1)
  }

  function DecPtr(target: Ty, elide: bool, s: seq<byte>, m: Mem, keep: bool): (r: (Mem, Result<nat>))
    ensures r.1.Ok? ==> r.1.value <= |s|
    decreases |s|, 0
  {
    match DelimAt(s)
    case Err(e) => (m, Err(e))
    case Ok((body, n)) => var (out, r) := DecPresent(target, elide, body, m, keep); (out, EndRegion(r, |body|, n))
  }

  /** A pointer behind its presence byte. A slice element keeps the struct it points to, reset; a field gets a new
      one. */
  function DecPresent(target: Ty, elide: bool, body: seq<byte>, m: Mem, keep: bool): (r: (Mem, Result<nat>))
    ensures r.1.Ok? ==> r.1.value <= |body|
    decreases |body|, 3
  {
    match PresenceAt(body, elide)
    case Err(e) => (m, Err(e))
    case Ok((p, _)) =>
      match p
      case Nil => (MNil, Ok(1))
      case Zero => (MNew(Fresh(target)), Ok(1))
      case NonZero =>
        var (x, r) := DecPointee(target, body[1..], if keep && m.MNew? then Reset(target, m.target) else Fresh(target));
        // a struct is decoded in place; anything else into a temporary that is only stored on success
        (if target.TStruct? || r.Ok? then MNew(x) else m, match r case Err(e) => Err(e) case Ok(n) => Ok(1 + n))
  }

  function DecPointee(t: Ty, s: seq<byte>, m: Mem): (r: (Mem, Result<nat>))
    ensures r.1.Ok? ==> r.1.value <= |s|
    decreases |s|, 2
  {
    match t
    case TStruct(fs) =>
      var (out, r) := DecCells(fs, s, Live(fs, m), Cells(fs, m));
      (out, if r == None then Ok(|s|) else Err(r.value))
    case _ => DecMem(t, s, m)
  }

  /** One slot of a slice, whatever is in it. */
  function DecSlot(t: Ty, s: seq<byte>, m: Mem): (r: (Mem, Result<nat>))
    ensures r.1.Ok? ==> r.1.value <= |s|
    decreases |s|, 2
  {
    match t
    case TOpt(target, elide) => DecPtr(target, elide, s, m, true)
    case TStruct(fs) => if DelimAt(s).Err? then (m, Err(DelimAt(s).error)) else DecStruct(fs, s, Reset(t, m))
    case TSlice(elem, size) => DecSlice(elem, size, s, if m.MSlice? then m.(len := 0) else m)
    case TMap(kt, vt) => DecMap(kt, vt, s, MMap(map[]))
    case _ => DecMem(t, s, m)
  }

  function DecSlots(t: Ty, slots: seq<Mem>, s: seq<byte>): (r: (seq<Mem>, Result<nat>))
    ensures |r.0| == |slots| && (r.1.Ok? ==> r.1.value <= |s|)
    decreases |s|, 3, |slots|
  {
    if |slots| == 0 then ([], Ok(0)) else
    var (m, r) := DecSlot(t, s, slots[0]);
    match r
    case Err(e) => ([m] + slots[1..], Err(e))
    case Ok(n) =>
      var (rest, q) := DecSlots(t, slots[1..], s[n..]);
      ([m] + rest, match q case Err(e) => Err(e) case Ok(k) => Ok(n + k))
  }

  function DecPairs(kt: KeyTy, vt: Ty, count: nat, s: seq<byte>, m: map<Key, Mem>): (r: (map<Key, Mem>, Result<nat>))
    ensures r.1.Ok? ==> r.1.value <= |s|
    decreases |s|, 3
  {
    if count == 0 then (m, Ok(0)) else
    match DecPair(kt, vt, s)
    case Err(e) => (m, Err(e))
    case Ok(((k, x), n)) =>
      var (out, r) := DecPairs(kt, vt, count - 1, s[n..], m[k := x]);
      (out, match r case Err(e) => Err(e) case Ok(c) => Ok(n + c))
  }

  /** A key and its value; the value is always a new one. */
  function DecPair(kt: KeyTy, vt: Ty, s: seq<byte>): (r: Result<((Key, Mem), nat)>)
    ensures r.Ok? ==> 1 <= r.value.1 <= |s|
    decreases |s|, 2
  {
    match DecKey(kt, s)
    case Err(e) => Err(e)
    case Ok((k, a)) =>
      var (x, r) := DecMem(vt, s[a..], Fresh(vt));
      match r case Err(e) => Err(e) case Ok(b) => Ok(((k, x), a + b))
  }

  /** The decode loop over a struct in memory: the struct afterwards and the error it stopped at. */
  function DecCells(fs: seq<Field>, s: seq<byte>, live: set<nat>, cells: seq<Mem>): (r: (Mem, Option<Error>))
    requires |cells| == |fs|
    ensures r.0.MStruct? && |r.0.cells| == |fs|
    decreases |s|, 0
  {
    if |s| == 0 then (MStruct(live, cells), None) else
    match TagAt(s)
    case Err(e) => (MStruct(live, cells), Some(e))
    case Ok(((tag, wire), n)) =>
      match Find(fs, tag)
      case None =>
        (match SkipAt(s[n..], wire)
         case Err(e) => (MStruct(live, cells), Some(e))
         case Ok(k) => DecCells(fs, s[n + k..], live, cells))
      case Some(i) =>
        if wire != WireOf(fs[i].ty) then (MStruct(live, cells), Some(WrongWireType)) else
        var (m, r) := DecCell(fs[i], s[n..], cells[i]);
        match r
        case Err(e) => (MStruct(live + fs[i].hops, cells[i := m]), Some(e))
        case Ok(k) => DecCells(fs, s[n + k..], live + fs[i].hops, cells[i := m])
  }

  /** An id_ref allocates its target before it reads the identifier. */
  function DecCell(f: Field, s: seq<byte>, m: Mem): (r: (Mem, Result<nat>))
    ensures r.1.Ok? ==> r.1.value <= |s|
    decreases |s|, 2
  {
    if !f.idRef then DecMem(f.ty, s, m) else
    var (x, r) := DecMem(f.ty, s, Fresh(f.ty));
    (MNew(x), r)
  }
}
