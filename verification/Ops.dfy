/** A marshal body as the tree of write calls it makes, and what those calls mean as bytes.

    Both passes of an encode run the same body. Materialising codecs call a generator that may answer differently at
    every call, so the meaning of a body is fixed only once each generator has been asked: Play asks them in walk
    order, counting calls from a given clock. */
module Ops {
  import opened Basics
  import opened Varint

  const MAX_TAG: int := 0x1FFF_FFFF

  type uint64 = x: int | 0 <= x < TWO_64
  type int64 = x: int | -TWO_63 <= x < TWO_63

  /** A Go string or byte slice: its length is a non-negative int. */
  type blob = s: seq<byte> | |s| < TWO_63

  datatype Lane = Strings | Values

  datatype PresenceState = Nil | NonZero | Zero

  function PresenceByte(p: PresenceState): byte {
    match p
    case Nil => 0
    case NonZero => 1
    case Zero => 3
  }

  datatype Op =
    | Tag(tag: nat, wire: nat)
    | Uvar(v: uint64)
    | Svar(i: int64)
    | Bool(b: bool)
    | Fixed(width: nat, bits: nat)
    | Text(text: blob)
    | Presence(state: PresenceState)
    // BeginLengthDelim; body; EndLengthDelim
    | Region(inner: seq<Op>)
    // WriteLength(n); body
    | Measured(n: uint64, body: seq<Op>)
    // WriteCachedString / WriteCachedBytes / WriteCachedAppendBytes: answer number k of the generator, or its failure
    | Cached(site: nat, lane: Lane, gen: nat -> Option<blob>)
    // a range check that returns an error
    | Fail(error: Error)

  /** What a body has written once every generator has answered. */
  datatype Ground =
    | Atom(data: seq<byte>)
    | Box(kids: seq<Ground>)
    | Claim(n: nat, claimed: seq<Ground>)

  /** One answer of a generator, in walk order. */
  datatype Occ = Occ(site: nat, lane: Lane, data: blob)

  datatype Outcome = Done(nodes: seq<Ground>, occs: seq<Occ>, clock: nat) | Stuck(error: Error)

  /** A length-prefixed string. */
  function Delim(data: seq<byte>): seq<byte> { Uvarint(|data|) + data }

  function LittleEndian(width: nat, bits: nat): seq<byte> {
    if width == 0 then [] else [bits % 256] + LittleEndian(width - 1, bits / 256)
  }

  lemma {:induction false} LittleEndianLength(width: nat, bits: nat)
    ensures |LittleEndian(width, bits)| == width
  {
    if width > 0 {
      LittleEndianLength(width - 1, bits / 256);
    }
  }

  /** The single atom a leaf call writes. */
  function Leaf(op: Op): seq<byte>
    requires op.Tag? || op.Uvar? || op.Svar? || op.Bool? || op.Fixed? || op.Text? || op.Presence?
  {
    match op
    case Tag(tag, wire) => Uvarint(tag * 8 + wire)
    case Uvar(v) => Uvarint(v)
    case Svar(i) => Uvarint(Zigzag(i))
    case Bool(b) => [if b then 1 else 0]
    case Fixed(width, bits) => LittleEndian(width, bits)
    case Text(text) => Delim(text)
    case Presence(state) => [PresenceByte(state)]
  }

  function TagError(tag: nat, wire: nat): Option<Error> {
    if tag == 0 then Some(ZeroTag)
    else if tag > MAX_TAG then Some(TagOverflow)
    else if wire > 3 then Some(ReservedWire)
    else None
  }

  function Play(op: Op, clock: nat): (r: Outcome)
    ensures r.Done? ==> r.clock == clock + |r.occs|
    decreases op, 0
  {
    match op
    case Tag(tag, wire) =>
      (match TagError(tag, wire)
       case Some(e) => Stuck(e)
       case None => Done([Atom(Leaf(op))], [], clock))
    case Region(inner) =>
      (match PlayAll(inner, clock)
       case Stuck(e) => Stuck(e)
       case Done(kids, occs, c) => Done([Box(kids)], occs, c))
    case Measured(n, body) =>
      (match PlayAll(body, clock)
       case Stuck(e) => Stuck(e)
       case Done(kids, occs, c) => Done([Claim(n, kids)], occs, c))
    case Cached(site, lane, gen) =>
      (match gen(clock)
       case None => Stuck(CodecFailed)
       case Some(data) => Done([Atom(Delim(data))], [Occ(site, lane, data)], clock + 1))
    case Fail(e) => Stuck(e)
    case _ => Done([Atom(Leaf(op))], [], clock)
  }

  function PlayAll(ops: seq<Op>, clock: nat): (r: Outcome)
    ensures r.Done? ==> r.clock == clock + |r.occs|
    decreases ops, 1
  {
    if |ops| == 0 then Done([], [], clock)
    else match Play(ops[0], clock)
      case Stuck(e) => Stuck(e)
      case Done(a, oa, c) =>
        match PlayAll(ops[1..], c)
        case Stuck(e) => Stuck(e)
        case Done(b, ob, d) => Done(a + b, oa + ob, d)
  }

  /** A presence byte comes first in its body if at all, so that no two are written without a length between them; and
      no fixed integer is wider than ten bytes. */
  ghost predicate Paced(op: Op)
    decreases op, 0
  {
    match op
    case Region(inner) => PacedBody(inner)
    case Measured(_, body) => PacedBody(body)
    case Fixed(width, _) => width <= 10
    case _ => true
  }

  ghost predicate PacedBody(ops: seq<Op>)
    decreases ops, 1
  {
    forall i :: 0 <= i < |ops| ==> Paced(ops[i]) && (ops[i].Presence? ==> i == 0)
  }

  /** The same, with no presence byte in front either. */
  ghost predicate Bare(ops: seq<Op>) { forall i :: 0 <= i < |ops| ==> Paced(ops[i]) && !ops[i].Presence? }

  /** The specification of every writer mode: a recursive pure encoder. */
  function Flat(g: Ground): seq<byte>
    decreases g, 0
  {
    match g
    case Atom(data) => data
    case Box(kids) => Delim(FlatAll(kids))
    case Claim(n, kids) => Uvarint(n) + FlatAll(kids)
  }

  function FlatAll(gs: seq<Ground>): seq<byte>
    decreases gs, 1
  {
    if |gs| == 0 then [] else Flat(gs[0]) + FlatAll(gs[1..])
  }

  /** Body sizes of the regions in the order they open. */
  function Sizes(g: Ground): seq<nat>
    decreases g, 0
  {
    match g
    case Atom(_) => []
    case Box(kids) => [|FlatAll(kids)|] + SizesAll(kids)
    case Claim(_, kids) => SizesAll(kids)
  }

  function SizesAll(gs: seq<Ground>): seq<nat>
    decreases gs, 1
  {
    if |gs| == 0 then [] else Sizes(gs[0]) + SizesAll(gs[1..])
  }

  /** Every region fits the five reserved length bytes of the buffered writer. */
  ghost predicate Fits(gs: seq<Ground>) {
    forall n :: n in SizesAll(gs) ==> n < TWO_35
  }

  /** Every length that was claimed up front is the byte count of what followed it. */
  predicate Truthful(g: Ground)
    decreases g, 0
  {
    match g
    case Atom(_) => true
    case Box(kids) => AllTruthful(kids)
    case Claim(n, kids) => n == |FlatAll(kids)| && AllTruthful(kids)
  }

  predicate AllTruthful(gs: seq<Ground>)
    decreases gs, 1
  {
    |gs| == 0 || (Truthful(gs[0]) && AllTruthful(gs[1..]))
  }

  lemma {:induction false} FlatAppend(a: seq<Ground>, b: seq<Ground>)
    ensures FlatAll(a + b) == FlatAll(a) + FlatAll(b)
  {
    if |a| == 0 {
      assert a + b == b;
    } else {
      assert (a + b)[1..] == a[1..] + b;
      FlatAppend(a[1..], b);
    }
  }

  lemma {:induction false} SizesAppend(a: seq<Ground>, b: seq<Ground>)
    ensures SizesAll(a + b) == SizesAll(a) + SizesAll(b)
  {
    if |a| == 0 {
      assert a + b == b;
    } else {
      assert (a + b)[1..] == a[1..] + b;
      SizesAppend(a[1..], b);
    }
  }

  lemma {:induction false} TruthAppend(a: seq<Ground>, b: seq<Ground>)
    ensures AllTruthful(a + b) <==> AllTruthful(a) && AllTruthful(b)
  {
    if |a| == 0 {
      assert a + b == b;
    } else {
      assert (a + b)[1..] == a[1..] + b;
      TruthAppend(a[1..], b);
    }
  }

  lemma {:induction false} FitsAppend(a: seq<Ground>, b: seq<Ground>)
    ensures Fits(a + b) <==> Fits(a) && Fits(b)
  {
    SizesAppend(a, b);
    var z := SizesAll(a + b);
    assert forall n :: n in z <==> n in SizesAll(a) || n in SizesAll(b);
  }

  /** One turn of PlayAll. */
  lemma {:induction false} PlayFirst(ops: seq<Op>, clock: nat)
    requires |ops| > 0
    ensures PlayAll(ops, clock) ==
            match Play(ops[0], clock)
            case Stuck(e) => Stuck(e)
            case Done(a, oa, c) =>
              match PlayAll(ops[1..], c)
              case Stuck(e) => Stuck(e)
              case Done(b, ob, d) => Done(a + b, oa + ob, d)
  {
    hide Play;
  }

  lemma {:induction false} PlayNothing(b: seq<Op>, clock: nat)
    ensures PlayAll([], clock) == Done([], [], clock)
    ensures PlayAll(b, clock) ==
            match PlayAll(b, clock)
            case Stuck(e) => Stuck(e)
            case Done(y, oy, d) => Done([] + y, [] + oy, d)
  {
  }

  /** Playing one body after another. */
  lemma {:induction false} PlayAppend(a: seq<Op>, b: seq<Op>, clock: nat)
    ensures PlayAll(a + b, clock) ==
            match PlayAll(a, clock)
            case Stuck(e) => Stuck(e)
            case Done(x, ox, c) =>
              match PlayAll(b, c)
              case Stuck(e) => Stuck(e)
              case Done(y, oy, d) => Done(x + y, ox + oy, d)
    decreases |a|
  {
    hide Play, PlayAll;
    if |a| == 0 {
      assert a + b == b && a == [];
      PlayNothing(b, clock);
    } else {
      assert (a + b)[0] == a[0] && (a + b)[1..] == a[1..] + b;
      PlayFirst(a, clock);
      PlayFirst(a + b, clock);
      if Play(a[0], clock).Done? {
        var p := Play(a[0], clock);
        PlayAppend(a[1..], b, p.clock);
        if PlayAll(a[1..], p.clock).Done? {
          var q := PlayAll(a[1..], p.clock);
          if PlayAll(b, q.clock).Done? {
            var r := PlayAll(b, q.clock);
            AppendAssoc(p.nodes, q.nodes, r.nodes);
            AppendAssoc(p.occs, q.occs, r.occs);
          }
        }
      }
    }
  }

  /** Regions never hold more bytes than the whole. */
  lemma {:induction false} RegionBound(gs: seq<Ground>, n: nat)
    requires n in SizesAll(gs)
    ensures n <= |FlatAll(gs)|
    decreases gs, 1
  {
    if n in Sizes(gs[0]) {
      RegionBoundOne(gs[0], n);
    } else {
      RegionBound(gs[1..], n);
    }
  }

  lemma {:induction false} RegionBoundOne(g: Ground, n: nat)
    requires n in Sizes(g)
    ensures n <= |Flat(g)|
    decreases g, 0
  {
    match g
    case Atom(_) =>
    case Box(kids) =>
      if n in SizesAll(kids) {
        RegionBound(kids, n);
      }
    case Claim(_, kids) => RegionBound(kids, n);
  }

  lemma {:induction false} SmallFits(gs: seq<Ground>)
    requires |FlatAll(gs)| < TWO_35
    ensures Fits(gs)
  {
    forall n | n in SizesAll(gs) ensures n < TWO_35 {
      RegionBound(gs, n);
    }
  }

  function IfKey(o: Occ, site: nat, lane: Lane): seq<blob> {
    if o.site == site && o.lane == lane then [o.data] else []
  }

  /** Answers recorded for one callsite and lane, in order. */
  function Column(occs: seq<Occ>, site: nat, lane: Lane): seq<blob> {
    if |occs| == 0 then [] else Column(occs[..|occs| - 1], site, lane) + IfKey(occs[|occs| - 1], site, lane)
  }

  lemma {:induction false} ColumnPrefix(tape: seq<Occ>, n: nat, site: nat, lane: Lane)
    requires n <= |tape|
    ensures Column(tape[..n], site, lane) <= Column(tape, site, lane)
  {
    if n < |tape| {
      assert tape[..|tape| - 1][..n] == tape[..n];
      ColumnPrefix(tape[..|tape| - 1], n, site, lane);
    } else {
      assert tape[..n] == tape;
    }
  }

  /** The next answer of a column is the next occurrence with that key, whatever other callsites come between. */
  lemma {:induction false} ColumnNext(tape: seq<Occ>, played: nat, site: nat, lane: Lane)
    requires played < |tape|
    ensures Column(tape[..played + 1], site, lane) ==
            Column(tape[..played], site, lane) + IfKey(tape[played], site, lane)
    ensures Column(tape[..played], site, lane) + IfKey(tape[played], site, lane) <= Column(tape, site, lane)
  {
    assert tape[..played + 1][..played] == tape[..played];
    ColumnPrefix(tape, played + 1, site, lane);
  }
}
