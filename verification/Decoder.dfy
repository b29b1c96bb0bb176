/** The generated UnmarshalGSBM as it runs: loops over a Reader, filling memory in place.

    Each method stays inside the region it was given, leaves the reader where DecMem says, and reports the reader's
    first error whenever the reader has one. Recursion and loops are measured by the bytes left in the region. */
module Decoder {
  import opened Basics
  import opened Varint
  import opened Wire
  import opened ReaderModel
  import opened Schema
  import opened Generated
  import opened Warm

  datatype Place = Place(buf: seq<byte>, pos: nat, end: nat, err: Option<Error>) {
    predicate Ready() { pos <= end <= |buf| && err == None }

    function Rest(): seq<byte>
      requires Ready()
    {
      buf[pos..end]
    }
  }

  ghost function At(r: Reader): Place
    reads r
  {
    Place(r.buf, r.pos, r.end, r.err)
  }

  /** From a to b is what a call that used n bytes, or stopped at an error, may do to a reader. */
  ghost predicate Stands(a: Place, b: Place, want: Result<nat>, e: Option<Error>) {
    && b.buf == a.buf && a.pos <= b.pos <= b.end <= a.end
    && (b.err.Some? ==> e == b.err)
    && match want
       case Ok(n) => e == None && b.err == None && b.end == a.end && b.pos == a.pos + n
       case Err(x) => e == Some(x)
  }

  /** b is in the n bytes a begins with, as a region of its own. */
  ghost predicate Inside(a: Place, b: Place, n: nat) {
    b.buf == a.buf && a.pos <= b.pos <= b.end <= a.end && b.end == a.pos + n && b.err == None
  }

  lemma {:induction false} Failed(a: Place, b: Place, x: Error)
    requires b.buf == a.buf && a.pos <= b.pos <= b.end <= a.end && b.err == Some(x)
    ensures Stands(a, b, Err(x), Some(x))
  {
  }

  lemma {:induction false} FailedInside(a: Place, n: nat, b: Place, c: Place, want: Result<nat>, left: nat,
                                        e: Option<Error>)
    requires Inside(a, b, n) && Stands(b, c, want, e) && e.Some?
    ensures Stands(a, c, EndRegion(want, left, n), e) && want.Err?
  {
  }

  lemma {:induction false} Same(r: Reader)
    requires r.Valid() && r.err == None
    ensures |r.Rest()| == r.end - r.pos
  {
  }

  /** EndLengthDelim, the region's own work being done. */
  method Leave(r: Reader, savedEnd: nat, ghost a: Place, ghost n: nat, ghost b: Place, ghost want: Result<nat>)
      returns (e: Option<Error>)
    requires r.Valid() && Inside(a, b, n) && a.end == savedEnd <= |a.buf| && Stands(b, At(r), want, None)
    modifies r`end, r`err
    ensures r.Valid() && Stands(a, At(r), EndRegion(want, b.end - b.pos, n), e)
  {
    e := r.EndLengthDelim(savedEnd);
  }

  function Used<T>(r: Result<(T, nat)>): Result<nat> {
    match r
    case Ok((_, n)) => Ok(n)
    case Err(e) => Err(e)
  }

  method DecodeInt(r: Reader, x: IntTy) returns (i: int, e: Option<Error>)
    requires r.Valid() && r.err == None
    modifies r
    ensures r.Valid() && Stands(old(At(r)), At(r), Used(DecInt(x, old(r.Rest()))), e)
    ensures e == None ==> DecInt(x, old(r.Rest())).Ok? && i == DecInt(x, old(r.Rest())).value.0
  {
    var u := r.ReadUvar();
    if u.Err? {
      return 0, Some(u.error);
    }
    i := if x.signed then Unzigzag(u.value) else u.value;
    if x.wire < 64 && !InWidth(i, x.wire, x.signed) {
      return 0, Some(IntegerOverflow);
    }
    return i, None;
  }

  method DecodeKey(r: Reader, kt: KeyTy) returns (k: Key, e: Option<Error>)
    requires r.Valid() && r.err == None
    modifies r
    ensures r.Valid() && Stands(old(At(r)), At(r), Used(DecKey(kt, old(r.Rest()))), e)
    ensures e == None ==> DecKey(kt, old(r.Rest())).Ok? && k == DecKey(kt, old(r.Rest())).value.0
  {
    k := BoolKey(false);
    match kt {
      case KBool =>
        var u := r.ReadUvar();
        if u.Err? {
          return k, Some(u.error);
        }
        return BoolKey(u.value != 0), None;
      case KInt(x) =>
        var i;
        i, e := DecodeInt(r, x);
        return IntKey(i), e;
      case KStr =>
        var b := r.ReadBytes();
        if b.Err? {
          return k, Some(b.error);
        }
        return StrKey(b.value), None;
    }
  }

  method DecodeLeaf(r: Reader, t: Ty, m: Mem) returns (out: Mem, e: Option<Error>)
    requires r.Valid() && r.err == None && (t.TBool? || t.TInt? || t.TFix? || t.TStr? || t.TCustom?)
    modifies r
    ensures r.Valid() && out == DecMem(t, old(r.Rest()), m).0
    ensures Stands(old(At(r)), At(r), DecMem(t, old(r.Rest()), m).1, e)
  {
    out := m;
    if t.TBool? {
      var u := r.ReadUvar();
      if u.Err? {
        return m, Some(u.error);
      }
      return MBool(u.value != 0), None;
    } else if t.TInt? {
      var i;
      i, e := DecodeInt(r, t.num);
      if e == None {
        out := MInt(i);
      }
    } else if t.TFix? {
      var u := r.ReadFixed(t.width);
      if u.Err? {
        return m, Some(u.error);
      }
      return MBits(u.value), None;
    } else {
      var b := r.ReadBytes();
      if b.Err? {
        return m, Some(b.error);
      }
      return MStr(b.value), None;
    }
  }

  /** The value of a field, a map entry or a plain slice element. */
  method DecodeValue(r: Reader, t: Ty, m: Mem) returns (out: Mem, e: Option<Error>)
    requires r.Valid() && r.err == None
    modifies r
    ensures r.Valid() && out == DecMem(t, old(r.Rest()), m).0
    ensures Stands(old(At(r)), At(r), DecMem(t, old(r.Rest()), m).1, e)
    decreases r.end - r.pos, 1
  {
    hide DecSlice, DecMap, DecPtr, DecStruct;
    match t {
      case TSlice(elem, size) => out, e := DecodeSlice(r, elem, size, m);
      case TMap(kt, vt) => out, e := DecodeMap(r, kt, vt, m);
      case TOpt(target, elide) => out, e := DecodePointer(r, target, elide, m, false);
      case TStruct(fs) => out, e := DecodeStruct(r, fs, m);
      case _ => out, e := DecodeLeaf(r, t, m);
    }
  }

  /** A struct value in its own region. */
  method DecodeStruct(r: Reader, fs: seq<Field>, m: Mem) returns (out: Mem, e: Option<Error>)
    requires r.Valid() && r.err == None
    modifies r
    ensures r.Valid() && out == DecStruct(fs, old(r.Rest()), m).0
    ensures Stands(old(At(r)), At(r), DecStruct(fs, old(r.Rest()), m).1, e)
    decreases r.end - r.pos, 0
  {
    hide DecCells, DelimAt, FreshCells;
    var saved := r.BeginLengthDelim();
    if saved.Err? {
      return m, Some(saved.error);
    }
    out, e := Unmarshal(r, fs, Live(fs, m), Cells(fs, m));
    if e == None {
      e := r.EndLengthDelim(saved.value);
    }
  }

  /** The loop of UnmarshalGSBM. */
  method Unmarshal(r: Reader, fs: seq<Field>, live: set<nat>, cells: seq<Mem>) returns (out: Mem, e: Option<Error>)
    requires r.Valid() && r.err == None && |cells| == |fs|
    modifies r
    ensures r.Valid() && out == DecCells(fs, old(r.Rest()), live, cells).0
            && e == DecCells(fs, old(r.Rest()), live, cells).1
    ensures r.buf == old(r.buf) && old(r.pos) <= r.pos <= r.end <= old(r.end) && (r.err.Some? ==> e == r.err)
    ensures e == None ==> r.err == None && r.pos == r.end == old(r.end)
    decreases r.end - r.pos, 0
  {
    hide DecCells, DecCell, DecMem, TagAt, SkipAt, Find, WireOf;
    var l, cs := live, cells;
    while r.HasMore()
      invariant r.Valid() && r.err == None && r.buf == old(r.buf) && old(r.pos) <= r.pos && r.end == old(r.end)
      invariant |cs| == |fs| && DecCells(fs, old(r.Rest()), live, cells) == DecCells(fs, r.Rest(), l, cs)
      decreases r.end - r.pos
    {
      ghost var here := At(r);
      ghost var s := r.Rest();
      OneTurn(fs, s, l, cs);
      var key := r.ReadTag();
      if key.Err? {
        return MStruct(l, cs), Some(key.error);
      }
      var (tag, wire) := key.value;
      ghost var n := r.pos - here.pos;
      assert s[n..] == r.Rest();
      var i := Find(fs, tag);
      match i {
        case None =>
          e := r.SkipField(wire);
          if e.Some? {
            return MStruct(l, cs), e;
          }
          assert s[r.pos - here.pos..] == r.Rest();
        case Some(j) =>
          if wire != WireOf(fs[j].ty) {
            return MStruct(l, cs), Some(WrongWireType);
          }
          l := l + fs[j].hops;
          var m;
          m, e := DecodeField(r, fs[j], cs[j]);
          cs := cs[j := m];
          if e.Some? {
            return MStruct(l, cs), e;
          }
          assert s[r.pos - here.pos..] == r.Rest();
      }
    }
    NoTurn(fs, r.Rest(), l, cs);
    return MStruct(l, cs), None;
  }

  lemma {:induction false} NoTurn(fs: seq<Field>, s: seq<byte>, live: set<nat>, cells: seq<Mem>)
    requires |cells| == |fs| && s == []
    ensures DecCells(fs, s, live, cells) == (MStruct(live, cells), None)
  {
  }

  /** One turn of the loop of UnmarshalGSBM. */
  lemma {:induction false} OneTurn(fs: seq<Field>, s: seq<byte>, live: set<nat>, cells: seq<Mem>)
    requires |cells| == |fs| && |s| > 0
    ensures match TagAt(s)
            case Err(e) => DecCells(fs, s, live, cells) == (MStruct(live, cells), Some(e))
            case Ok(((tag, wire), n)) =>
              match Find(fs, tag)
              case None =>
                (match SkipAt(s[n..], wire)
                 case Err(e) => DecCells(fs, s, live, cells) == (MStruct(live, cells), Some(e))
                 case Ok(k) => DecCells(fs, s, live, cells) == DecCells(fs, s[n + k..], live, cells))
              case Some(i) =>
                if wire != WireOf(fs[i].ty) then DecCells(fs, s, live, cells)
                    == (MStruct(live, cells), Some(WrongWireType))
                else
                  var (m, q) := DecCell(fs[i], s[n..], cells[i]);
                  match q
                  case Err(e) => DecCells(fs, s, live, cells) == (MStruct(live + fs[i].hops, cells[i := m]), Some(e))
                  case Ok(k) =>
                    DecCells(fs, s, live, cells) == DecCells(fs, s[n + k..], live + fs[i].hops, cells[i := m])
  {
    hide TagAt, SkipAt, Find, WireOf, DecCell;
  }

  /** The case body of a known tag. An id_ref decodes into a new target. */
  method DecodeField(r: Reader, f: Field, m: Mem) returns (out: Mem, e: Option<Error>)
    requires r.Valid() && r.err == None
    modifies r
    ensures r.Valid() && out == DecCell(f, old(r.Rest()), m).0
    ensures Stands(old(At(r)), At(r), DecCell(f, old(r.Rest()), m).1, e)
    decreases r.end - r.pos, 2
  {
    hide DecMem, Fresh;
    if f.idRef {
      out, e := DecodeValue(r, f.ty, Fresh(f.ty));
      out := MNew(out);
    } else {
      out, e := DecodeValue(r, f.ty, m);
    }
  }

  method DecodePointer(r: Reader, target: Ty, elide: bool, m: Mem, keep: bool) returns (out: Mem, e: Option<Error>)
    requires r.Valid() && r.err == None
    modifies r
    ensures r.Valid() && out == DecPtr(target, elide, old(r.Rest()), m, keep).0
    ensures Stands(old(At(r)), At(r), DecPtr(target, elide, old(r.Rest()), m, keep).1, e)
    decreases r.end - r.pos, 0
  {
    hide DecPresent, DelimAt, Stands, EndRegion, Reader.Rest;
    ghost var a := At(r);
    var saved := r.BeginLengthDelim();
    if saved.Err? {
      Failed(a, At(r), saved.error);
      return m, Some(saved.error);
    }
    Same(r);
    ghost var n, b, want := r.end - a.pos, At(r), DecPresent(target, elide, r.Rest(), m, keep).1;
    out, e := DecodePresent(r, target, elide, m, keep);
    if e.Some? {
      FailedInside(a, n, b, At(r), want, b.end - b.pos, e);
      return;
    }
    e := Leave(r, saved.value, a, n, b, want);
  }

  /** What is in a pointer's region: the presence byte and what it announces. */
  method DecodePresent(r: Reader, target: Ty, elide: bool, m: Mem, keep: bool) returns (out: Mem, e: Option<Error>)
    requires r.Valid() && r.err == None
    modifies r
    ensures r.Valid() && out == DecPresent(target, elide, old(r.Rest()), m, keep).0
    ensures Stands(old(At(r)), At(r), DecPresent(target, elide, old(r.Rest()), m, keep).1, e)
    decreases r.end - r.pos, 2
  {
    hide DecPointee, PresenceAt, Reset, Fresh;
    var p := r.ReadPresenceByte(elide);
    if p.Err? {
      return m, Some(p.error);
    }
    match p.value {
      case Nil => return MNil, None;
      case Zero => return MNew(Fresh(target)), None;
      case NonZero =>
        var cell := if keep && m.MNew? then Reset(target, m.target) else Fresh(target);
        cell, e := DecodePointee(r, target, cell);
        out := if target.TStruct? || e == None then MNew(cell) else m;
    }
  }

  /** A struct behind a presence byte has the rest of the region to itself. */
  method DecodePointee(r: Reader, t: Ty, m: Mem) returns (out: Mem, e: Option<Error>)
    requires r.Valid() && r.err == None
    modifies r
    ensures r.Valid() && out == DecPointee(t, old(r.Rest()), m).0
    ensures Stands(old(At(r)), At(r), DecPointee(t, old(r.Rest()), m).1, e)
    decreases r.end - r.pos, 2
  {
    hide DecMem, DecCells, Live, Cells;
    if t.TStruct? {
      out, e := Unmarshal(r, t.fields, Live(t.fields, m), Cells(t.fields, m));
    } else {
      out, e := DecodeValue(r, t, m);
    }
  }

  /** One slot of a slice. */
  method DecodeElement(r: Reader, t: Ty, m: Mem) returns (out: Mem, e: Option<Error>)
    requires r.Valid() && r.err == None
    modifies r
    ensures r.Valid() && out == DecSlot(t, old(r.Rest()), m).0
    ensures Stands(old(At(r)), At(r), DecSlot(t, old(r.Rest()), m).1, e)
    decreases r.end - r.pos, 2
  {
    match t {
      case TOpt(target, elide) => out, e := DecodePointer(r, target, elide, m, true);
      case TStruct(fs) =>
        hide DecCells, DelimAt, FreshCells, Reset, Live, Cells;
        var saved := r.BeginLengthDelim();
        if saved.Err? {
          return m, Some(saved.error);
        }
        var clean := Reset(t, m);
        out, e := Unmarshal(r, fs, Live(fs, clean), Cells(fs, clean));
        if e == None {
          e := r.EndLengthDelim(saved.value);
        }
      case TSlice(elem, size) => out, e := DecodeSlice(r, elem, size, if m.MSlice? then m.(len := 0) else m);
      case TMap(kt, vt) => out, e := DecodeMap(r, kt, vt, MMap(map[]));
      case _ => out, e := DecodeValue(r, t, m);
    }
  }

  method DecodeSlice(r: Reader, elem: Ty, size: nat, m: Mem) returns (out: Mem, e: Option<Error>)
    requires r.Valid() && r.err == None
    modifies r
    ensures r.Valid() && out == DecSlice(elem, size, old(r.Rest()), m).0
    ensures Stands(old(At(r)), At(r), DecSlice(elem, size, old(r.Rest()), m).1, e)
    decreases r.end - r.pos, 0
  {
    hide DecCounted, DelimAt, Stands, EndRegion, Reader.Rest;
    ghost var a := At(r);
    var saved := r.BeginLengthDelim();
    if saved.Err? {
      Failed(a, At(r), saved.error);
      return m, Some(saved.error);
    }
    Same(r);
    ghost var n, b, want := r.end - a.pos, At(r), DecCounted(elem, size, r.Rest(), m).1;
    out, e := DecodeCounted(r, elem, size, m);
    if e.Some? {
      FailedInside(a, n, b, At(r), want, b.end - b.pos, e);
      return;
    }
    e := Leave(r, saved.value, a, n, b, want);
  }

  /** What is in a slice's region: the count and the elements, in the slots there are or in new ones. */
  method DecodeCounted(r: Reader, elem: Ty, size: nat, m: Mem) returns (out: Mem, e: Option<Error>)
    requires r.Valid() && r.err == None
    modifies r
    ensures r.Valid() && out == DecCounted(elem, size, old(r.Rest()), m).0
    ensures Stands(old(At(r)), At(r), DecCounted(elem, size, old(r.Rest()), m).1, e)
    decreases r.end - r.pos, 4
  {
    hide DecSlots, CountAt, OverBudget, Blank;
    var n := r.ReadLength();
    if n.Err? {
      return m, Some(n.error);
    }
    var count := n.value;
    var slots := if m.MSlice? then m.slots else [];
    if count == 0 {
      return if m.MSlice? then m else MSlice([], 0), None;
    }
    if |slots| < count {
      if OverBudget(count, size) {
        r.SetErr(AllocTooLarge);
        return MSlice([], 0), r.err;
      }
      slots := Blank(elem, count);
    }
    slots, e := DecodeSlots(r, elem, slots, count);
    out := MSlice(slots, count);
  }

  /** The element loop, in place over the first count slots. */
  method DecodeSlots(r: Reader, elem: Ty, slots: seq<Mem>, count: nat) returns (out: seq<Mem>, e: Option<Error>)
    requires r.Valid() && r.err == None && count <= |slots|
    modifies r
    ensures r.Valid() && out == DecSlots(elem, slots[..count], old(r.Rest())).0 + slots[count..]
    ensures Stands(old(At(r)), At(r), DecSlots(elem, slots[..count], old(r.Rest())).1, e)
    decreases r.end - r.pos, 3
  {
    hide DecSlots, DecSlot, SlotsLeft;
    out := slots;
    var i := 0;
    SlotsStart(elem, slots[..count], At(r));
    assert slots[0..count] == slots[..count] && out[..0] == [];
    while i < count
      invariant 0 <= i <= count && |out| == |slots| && out[i..] == slots[i..]
      invariant r.Valid() && r.err == None && r.buf == old(r.buf) && old(r.pos) <= r.pos && r.end == old(r.end)
      invariant SlotsLeft(elem, slots[..count], old(At(r)), out[..i], At(r), slots[i..count])
    {
      ghost var here := At(r);
      InPlace(slots, out, i, count);
      var m;
      m, e := DecodeElement(r, elem, out[i]);
      SlotsStep(elem, slots[..count], old(At(r)), out[..i], here, slots[i..count], m, e, At(r));
      Put(slots, out, i, count, m);
      out := out[i := m];
      if e.Some? {
        return;
      }
      i := i + 1;
    }
    e := None;
    assert slots[count..count] == [];
    SlotsEnd(elem, slots[..count], old(At(r)), out[..count], At(r));
    assert out == out[..count] + slots[count..];
  }

  lemma {:induction false} InPlace<T>(slots: seq<T>, out: seq<T>, i: nat, count: nat)
    requires |out| == |slots| && i < count <= |out| && out[i..] == slots[i..]
    ensures slots[i..count][0] == out[i] && slots[i..count][1..] == slots[i + 1..count]
  {
    assert out[i] == out[i..][0];
  }

  lemma {:induction false} Put<T>(slots: seq<T>, out: seq<T>, i: nat, count: nat, m: T)
    requires |out| == |slots| && i < count <= |out| && out[i..] == slots[i..]
    ensures var now := out[i := m];
            && now[..i + 1] == out[..i] + [m] && now[i + 1..] == slots[i + 1..]
            && now == out[..i] + ([m] + slots[i + 1..count]) + slots[count..]
  {
    assert out[i..][1..] == out[i + 1..];
    assert slots[i + 1..] == slots[i + 1..count] + slots[count..];
  }

  /** The element loop half way: what is done and what the rest will be make up the whole. */
  ghost predicate SlotsLeft(t: Ty, all: seq<Mem>, a: Place, done: seq<Mem>, b: Place, left: seq<Mem>)
    requires a.Ready() && b.Ready()
  {
    var whole, rest := DecSlots(t, all, a.Rest()), DecSlots(t, left, b.Rest());
    && a.pos <= b.pos
    && whole.0 == done + rest.0
    && whole.1 == match rest.1 case Err(e) => Err(e) case Ok(n) => Ok(b.pos - a.pos + n)
  }

  lemma {:induction false} SlotsStart(t: Ty, all: seq<Mem>, a: Place)
    requires a.Ready()
    ensures SlotsLeft(t, all, a, [], a, all)
  {
    hide DecSlots;
    assert [] + DecSlots(t, all, a.Rest()).0 == DecSlots(t, all, a.Rest()).0;
  }

  lemma {:induction false} SlotsEnd(t: Ty, all: seq<Mem>, a: Place, done: seq<Mem>, b: Place)
    requires a.Ready() && b.Ready() && SlotsLeft(t, all, a, done, b, [])
    ensures DecSlots(t, all, a.Rest()) == (done, Ok(b.pos - a.pos))
  {
    assert DecSlots(t, [], b.Rest()) == ([], Ok(0));
    assert done + [] == done;
  }

  lemma {:induction false} SlotsStep(t: Ty, all: seq<Mem>, a: Place, done: seq<Mem>, b: Place, left: seq<Mem>, m: Mem,
                                     e: Option<Error>, c: Place)
    requires a.Ready() && b.Ready() && |left| > 0 && SlotsLeft(t, all, a, done, b, left)
    requires m == DecSlot(t, b.Rest(), left[0]).0 && Stands(b, c, DecSlot(t, b.Rest(), left[0]).1, e)
    ensures e == None ==> c.Ready() && SlotsLeft(t, all, a, done + [m], c, left[1..])
    ensures e.Some? ==> DecSlots(t, all, a.Rest()) == (done + ([m] + left[1..]), Err(e.value))
  {
    hide DecSlot;
    if e == None {
      var n := DecSlot(t, b.Rest(), left[0]).1.value;
      assert b.Rest()[n..] == c.Rest();
      var rest := DecSlots(t, left[1..], c.Rest()).0;
      assert done + [m] + rest == done + ([m] + rest);
    }
  }

  method DecodeMap(r: Reader, kt: KeyTy, vt: Ty, m: Mem) returns (out: Mem, e: Option<Error>)
    requires r.Valid() && r.err == None
    modifies r
    ensures r.Valid() && out == DecMap(kt, vt, old(r.Rest()), m).0
    ensures Stands(old(At(r)), At(r), DecMap(kt, vt, old(r.Rest()), m).1, e)
    decreases r.end - r.pos, 0
  {
    hide DecListed, DelimAt, Stands, EndRegion, Reader.Rest;
    ghost var a := At(r);
    var saved := r.BeginLengthDelim();
    if saved.Err? {
      Failed(a, At(r), saved.error);
      return m, Some(saved.error);
    }
    Same(r);
    ghost var n, b, want := r.end - a.pos, At(r), DecListed(kt, vt, r.Rest(), m).1;
    out, e := DecodeListed(r, kt, vt, m);
    if e.Some? {
      FailedInside(a, n, b, At(r), want, b.end - b.pos, e);
      return;
    }
    e := Leave(r, saved.value, a, n, b, want);
  }

  /** What is in a map's region: the count and the entries. */
  method DecodeListed(r: Reader, kt: KeyTy, vt: Ty, m: Mem) returns (out: Mem, e: Option<Error>)
    requires r.Valid() && r.err == None
    modifies r
    ensures r.Valid() && out == DecListed(kt, vt, old(r.Rest()), m).0
    ensures Stands(old(At(r)), At(r), DecListed(kt, vt, old(r.Rest()), m).1, e)
    decreases r.end - r.pos, 4
  {
    hide DecPairs, CountAt;
    var n := r.ReadLength();
    if n.Err? {
      return m, Some(n.error);
    }
    var entries;
    entries, e := DecodePairs(r, kt, vt, n.value, if m.MMap? then m.entries else map[]);
    out := MMap(entries);
  }

  /** One entry. */
  method DecodePair(r: Reader, kt: KeyTy, vt: Ty) returns (k: Key, v: Mem, e: Option<Error>)
    requires r.Valid() && r.err == None
    modifies r
    ensures r.Valid() && Stands(old(At(r)), At(r), Used(DecPair(kt, vt, old(r.Rest()))), e)
    ensures e == None ==> DecPair(kt, vt, old(r.Rest())).Ok? && (k, v) == DecPair(kt, vt, old(r.Rest())).value.0
    decreases r.end - r.pos, 2
  {
    hide DecMem, DecKey, Fresh;
    ghost var here := At(r);
    v := Fresh(vt);
    k, e := DecodeKey(r, kt);
    if e.Some? {
      return;
    }
    assert here.Rest()[r.pos - here.pos..] == r.Rest();
    v, e := DecodeValue(r, vt, v);
  }

  /** The entry loop. */
  method DecodePairs(r: Reader, kt: KeyTy, vt: Ty, count: nat, m: map<Key, Mem>)
      returns (out: map<Key, Mem>, e: Option<Error>)
    requires r.Valid() && r.err == None
    modifies r
    ensures r.Valid() && out == DecPairs(kt, vt, count, old(r.Rest()), m).0
    ensures Stands(old(At(r)), At(r), DecPairs(kt, vt, count, old(r.Rest()), m).1, e)
    decreases r.end - r.pos, 3
  {
    hide DecPairs, DecPair, PairsLeft;
    out := m;
    var i := 0;
    PairsStart(kt, vt, count, At(r), m);
    while i < count
      invariant 0 <= i <= count
      invariant r.Valid() && r.err == None && r.buf == old(r.buf) && old(r.pos) <= r.pos && r.end == old(r.end)
      invariant PairsLeft(kt, vt, count, old(At(r)), m, count - i, At(r), out)
    {
      ghost var here := At(r);
      var k, v;
      k, v, e := DecodePair(r, kt, vt);
      if e.Some? {
        PairsFail(kt, vt, count, old(At(r)), m, count - i, here, out, e.value);
        return;
      }
      PairsStep(kt, vt, count, old(At(r)), m, count - i, here, out, k, v, At(r));
      out := out[k := v];
      i := i + 1;
    }
    e := None;
    PairsEnd(kt, vt, count, old(At(r)), m, At(r), out);
  }

  ghost predicate PairsLeft(kt: KeyTy, vt: Ty, count: nat, a: Place, m: map<Key, Mem>, left: nat, b: Place,
                            now: map<Key, Mem>)
    requires a.Ready() && b.Ready()
  {
    var whole, rest := DecPairs(kt, vt, count, a.Rest(), m), DecPairs(kt, vt, left, b.Rest(), now);
    && a.pos <= b.pos
    && whole.0 == rest.0
    && whole.1 == match rest.1 case Err(e) => Err(e) case Ok(n) => Ok(b.pos - a.pos + n)
  }

  lemma {:induction false} PairsStart(kt: KeyTy, vt: Ty, count: nat, a: Place, m: map<Key, Mem>)
    requires a.Ready()
    ensures PairsLeft(kt, vt, count, a, m, count, a, m)
  {
    hide DecPairs;
  }

  lemma {:induction false} PairsEnd(kt: KeyTy, vt: Ty, count: nat, a: Place, m: map<Key, Mem>, b: Place,
                                    now: map<Key, Mem>)
    requires a.Ready() && b.Ready() && PairsLeft(kt, vt, count, a, m, 0, b, now)
    ensures DecPairs(kt, vt, count, a.Rest(), m) == (now, Ok(b.pos - a.pos))
  {
    hide DecPair;
  }

  lemma {:induction false} PairsFail(kt: KeyTy, vt: Ty, count: nat, a: Place, m: map<Key, Mem>, left: nat, b: Place,
                                     now: map<Key, Mem>, e: Error)
    requires a.Ready() && b.Ready() && left > 0 && PairsLeft(kt, vt, count, a, m, left, b, now)
    requires DecPair(kt, vt, b.Rest()) == Err(e)
    ensures DecPairs(kt, vt, count, a.Rest(), m) == (now, Err(e))
  {
    hide DecPair;
  }

  lemma {:induction false} PairsStep(kt: KeyTy, vt: Ty, count: nat, a: Place, m: map<Key, Mem>, left: nat, b: Place,
                                     now: map<Key, Mem>,
                                     k: Key, v: Mem, c: Place)
    requires a.Ready() && b.Ready() && left > 0 && PairsLeft(kt, vt, count, a, m, left, b, now)
    requires c.Ready() && c.buf == b.buf && c.end == b.end && b.pos <= c.pos
             && DecPair(kt, vt, b.Rest()) == Ok(((k, v), c.pos - b.pos))
    ensures PairsLeft(kt, vt, count, a, m, left - 1, c, now[k := v])
  {
    hide DecPair;
    assert b.Rest()[c.pos - b.pos..] == c.Rest();
  }
}
