/** Running a marshal body on a Writer, in whichever mode the Writer is. */
module Passes {
  import opened Basics
  import opened Varint
  import opened Ops
  import opened WriterModel

  /** The generators are either all asked now, with the clock where the body's meaning starts, or all replayed. */
  ghost predicate Ready(a: Snap, r: Outcome, clock: nat) {
    || (a.played == |a.tape| && clock == a.calls)
    || (r.Done? && a.played <= |a.tape| && r.occs <= a.tape[a.played..])
  }

  /** A streaming writer holds, from its current index on, the sizes of the regions the body is about to open. */
  ghost predicate Planned(cfg: Config, a: Snap, r: Outcome) {
    cfg.streaming ==>
      && r.Done?
      && a.idx <= |cfg.streamSizes|
      && SizesAll(r.nodes) <= cfg.streamSizes[a.idx..]
  }

  /** What a run does to a writer: r is the body's meaning, e the error it returned. */
  ghost predicate Ran(cfg: Config, a: Snap, b: Snap, r: Outcome, e: Option<Error>) {
    && (e == None ==> r.Done? && Advance(cfg, a, b, FlatAll(r.nodes), SizesAll(r.nodes), r.occs))
    && (cfg.sizeOnly ==> e == if r.Done? then None else Some(r.error))
    && (r.Done? && !cfg.sizeOnly && !cfg.streaming ==> e == if Fits(r.nodes) then None else Some(BodyTooLarge))
    && (r.Done? && cfg.streaming ==> e == None || (e == Some(TargetFailed) && cfg.failAt >= 0))
  }

  method RunAll(w: Writer, ops: seq<Op>, ghost clock: nat) returns (e: Option<Error>)
    requires w.Valid() && w.err == None
    requires Ready(w.S(), PlayAll(ops, clock), clock) && Planned(w.cfg, w.S(), PlayAll(ops, clock))
    modifies w
    ensures w.Valid() && Ran(w.cfg, old(w.S()), w.S(), PlayAll(ops, clock), e)
    ensures (PacedBody(ops) && Tight(w.cfg, old(w.S()))) || (Bare(ops) && Loose(w.cfg, old(w.S()))) ==>
            Loose(w.cfg, w.S())
    decreases ops, 1
  {
    ghost var a := w.S();
    if |ops| == 0 {
      NothingRan(w.cfg, a);
      return None;
    }
    ghost var r1 := Play(ops[0], clock);
    FirstReady(w.cfg, a, ops, clock);
    e := Run(w, ops[0], clock);
    ghost var b := w.S();
    FirstFailed(w.cfg, a, b, ops, clock, e);
    if e.Some? {
      return;
    }
    RestReady(w.cfg, a, b, ops, clock);
    e := RunAll(w, ops[1..], r1.clock);
    BothRan(w.cfg, a, b, w.S(), ops, clock, e);
  }

  method Run(w: Writer, op: Op, ghost clock: nat) returns (e: Option<Error>)
    requires w.Valid() && w.err == None
    requires Ready(w.S(), Play(op, clock), clock) && Planned(w.cfg, w.S(), Play(op, clock))
    modifies w
    ensures w.Valid() && Ran(w.cfg, old(w.S()), w.S(), Play(op, clock), e)
    ensures Paced(op) && (if op.Presence? then Tight(w.cfg, old(w.S())) else Loose(w.cfg, old(w.S()))) ==>
            Loose(w.cfg, w.S())
    decreases op, 0
  {
    ghost var a := w.S();
    match op
    case Fail(error) => e := Some(error);
    case Region(inner) => e := RunRegion(w, inner, clock);
    case Measured(n, body) => e := RunMeasured(w, n, body, clock);
    case Cached(site, lane, gen) => e := RunCached(w, site, lane, gen, clock);
    case Tag(tag, wire) => w.WriteTag(tag, wire); e := w.err; LeafRan(w.cfg, a, w.S(), op, clock);
    case Uvar(v) => w.WriteUvarint(v); e := w.err; LeafRan(w.cfg, a, w.S(), op, clock);
    case Svar(i) => w.WriteVarint(i); e := w.err; LeafRan(w.cfg, a, w.S(), op, clock);
    case Bool(v) => w.WriteBool(v); e := w.err; LeafRan(w.cfg, a, w.S(), op, clock);
    case Fixed(width, bits) => w.WriteFixed(width, bits); e := w.err; LeafRan(w.cfg, a, w.S(), op, clock);
    case Text(text) => w.WriteText(text); e := w.err; LeafRan(w.cfg, a, w.S(), op, clock);
    case Presence(state) => w.WritePresence(state); e := w.err; LeafRan(w.cfg, a, w.S(), op, clock);
  }

  method RunRegion(w: Writer, inner: seq<Op>, ghost clock: nat) returns (e: Option<Error>)
    requires w.Valid() && w.err == None
    requires Ready(w.S(), Play(Region(inner), clock), clock) && Planned(w.cfg, w.S(), Play(Region(inner), clock))
    modifies w
    ensures w.Valid() && Ran(w.cfg, old(w.S()), w.S(), Play(Region(inner), clock), e)
    ensures PacedBody(inner) && Loose(w.cfg, old(w.S())) ==> Loose(w.cfg, w.S())
    decreases inner, 2
  {
    hide Tight, Loose;
    ghost var a := w.S();
    RegionPlan(w.cfg, a, inner, clock);
    var marker := w.BeginLengthDelim();
    ghost var b := w.S();
    Tightened(w.cfg, b);
    if w.err.Some? {
      return w.err;
    }
    e := RunAll(w, inner, clock);
    ghost var c := w.S();
    if e.Some? {
      InnerFailed(w.cfg, a, b, c, inner, clock, e);
      return;
    }
    w.EndLengthDelim(marker);
    e := w.err;
    RegionRan(w.cfg, a, b, c, w.S(), inner, clock, e);
  }

  lemma {:induction false} Tightened(cfg: Config, s: Snap)
    ensures Tight(cfg, s) ==> Loose(cfg, s)
  {
  }

  method RunMeasured(w: Writer, n: uint64, body: seq<Op>, ghost clock: nat) returns (e: Option<Error>)
    requires w.Valid() && w.err == None
    requires Ready(w.S(), Play(Measured(n, body), clock), clock)
             && Planned(w.cfg, w.S(), Play(Measured(n, body), clock))
    modifies w
    ensures w.Valid() && Ran(w.cfg, old(w.S()), w.S(), Play(Measured(n, body), clock), e)
    ensures PacedBody(body) && Loose(w.cfg, old(w.S())) ==> Loose(w.cfg, w.S())
    decreases body, 2
  {
    ghost var a := w.S();
    if PlayAll(body, clock).Done? {
      OneClaim(n, PlayAll(body, clock).nodes);
    }
    w.WriteUvarint(n);
    if w.err.Some? {
      return w.err;
    }
    ghost var b := w.S();
    e := RunAll(w, body, clock);
    if e == None {
      WritesAdvance(w.cfg, a, b, Uvarint(n));
      ClaimRan(w.cfg, a, b, w.S(), n, body, clock);
    }
  }

  method RunCached(w: Writer, site: nat, lane: Lane, gen: nat -> Option<blob>, ghost clock: nat)
      returns (e: Option<Error>)
    requires w.Valid() && w.err == None
    requires Ready(w.S(), Play(Cached(site, lane, gen), clock), clock)
    requires Planned(w.cfg, w.S(), Play(Cached(site, lane, gen), clock))
    modifies w
    ensures w.Valid() && Ran(w.cfg, old(w.S()), w.S(), Play(Cached(site, lane, gen), clock), e)
    ensures Loose(w.cfg, old(w.S())) ==> Loose(w.cfg, w.S())
  {
    ghost var a := w.S();
    ghost var r := Play(Cached(site, lane, gen), clock);
    w.WriteCached(site, lane, gen);
    e := w.err;
    if r.Done? {
      OneAtom(Delim(r.occs[0].data));
    }
  }

  lemma {:induction false} OneAtom(data: seq<byte>)
    ensures FlatAll([Atom(data)]) == data && SizesAll([Atom(data)]) == [] && Fits([Atom(data)])
  {
    assert [Atom(data)][1..] == [];
  }

  lemma {:induction false} OneBox(kids: seq<Ground>)
    ensures FlatAll([Box(kids)]) == Delim(FlatAll(kids))
    ensures SizesAll([Box(kids)]) == [|FlatAll(kids)|] + SizesAll(kids)
    ensures Fits([Box(kids)]) <==> Fits(kids) && |FlatAll(kids)| < TWO_35
  {
    assert [Box(kids)][1..] == [];
    assert |FlatAll(kids)| in SizesAll([Box(kids)]);
    assert forall n :: n in SizesAll(kids) ==> n in SizesAll([Box(kids)]);
  }

  lemma {:induction false} OneClaim(n: nat, kids: seq<Ground>)
    ensures FlatAll([Claim(n, kids)]) == Uvarint(n) + FlatAll(kids)
    ensures SizesAll([Claim(n, kids)]) == SizesAll(kids)
    ensures Fits([Claim(n, kids)]) <==> Fits(kids)
  {
    assert [Claim(n, kids)][1..] == [];
  }

  lemma {:induction false} NothingRan(cfg: Config, a: Snap)
    requires a.err == None && a.played <= |a.tape|
    ensures Ran(cfg, a, a, Done([], [], a.calls), None)
    ensures forall clock :: Ran(cfg, a, a, Done([], [], clock), None)
  {
    Stay(cfg, a);
    WritesAdvance(cfg, a, a, []);
  }

  lemma {:induction false} LeafRan(cfg: Config, a: Snap, b: Snap, op: Op, clock: nat)
    requires a.err == None && a.played <= |a.tape|
    requires op.Tag? || op.Uvar? || op.Svar? || op.Bool? || op.Fixed? || op.Text? || op.Presence?
    requires op.Tag? && TagError(op.tag, op.wire).Some? ==> b == a.(err := TagError(op.tag, op.wire))
    requires !(op.Tag? && TagError(op.tag, op.wire).Some?) ==> Writes(cfg, a, b, Leaf(op))
    requires cfg.sizeOnly ==> !cfg.streaming
    requires Planned(cfg, a, Play(op, clock))
    ensures Ran(cfg, a, b, Play(op, clock), b.err)
  {
    if Play(op, clock).Done? {
      OneAtom(Leaf(op));
      if b.err == None {
        WritesAdvance(cfg, a, b, Leaf(op));
      }
    }
  }

  lemma {:induction false} FirstReady(cfg: Config, a: Snap, ops: seq<Op>, clock: nat)
    requires |ops| > 0 && Ready(a, PlayAll(ops, clock), clock) && Planned(cfg, a, PlayAll(ops, clock))
    ensures Ready(a, Play(ops[0], clock), clock) && Planned(cfg, a, Play(ops[0], clock))
  {
    var r := PlayAll(ops, clock);
    if r.Done? {
      var r1 := Play(ops[0], clock);
      var r2 := PlayAll(ops[1..], r1.clock);
      SizesAppend(r1.nodes, r2.nodes);
      if cfg.streaming {
        PrefixSplit(SizesAll(r1.nodes), SizesAll(r2.nodes), cfg.streamSizes[a.idx..]);
      }
      if !(a.played == |a.tape| && clock == a.calls) {
        PrefixSplit(r1.occs, r2.occs, a.tape[a.played..]);
      }
    }
  }

  lemma {:induction false} FirstFailed(cfg: Config, a: Snap, b: Snap, ops: seq<Op>, clock: nat, e: Option<Error>)
    requires |ops| > 0 && Planned(cfg, a, PlayAll(ops, clock)) && (cfg.sizeOnly ==> !cfg.streaming)
    requires Ran(cfg, a, b, Play(ops[0], clock), e)
    ensures e.Some? ==> Ran(cfg, a, b, PlayAll(ops, clock), e)
  {
    if PlayAll(ops, clock).Done? {
      var r1 := Play(ops[0], clock);
      FitsAppend(r1.nodes, PlayAll(ops[1..], r1.clock).nodes);
    }
  }

  lemma {:induction false} RestReady(cfg: Config, a: Snap, b: Snap, ops: seq<Op>, clock: nat)
    requires |ops| > 0 && Ready(a, PlayAll(ops, clock), clock) && Planned(cfg, a, PlayAll(ops, clock))
    requires Ran(cfg, a, b, Play(ops[0], clock), None) && a.played <= |a.tape|
    ensures b.err == None
    ensures var r1 := Play(ops[0], clock); Ready(b, PlayAll(ops[1..], r1.clock), r1.clock)
    ensures var r1 := Play(ops[0], clock); Planned(cfg, b, PlayAll(ops[1..], r1.clock))
  {
    var r1 := Play(ops[0], clock);
    var r2 := PlayAll(ops[1..], r1.clock);
    if r2.Done? {
      RestPlanned(cfg, a, b, r1.nodes, r2.nodes);
      if !(a.played == |a.tape| && clock == a.calls) {
        RestReplays(a, b, r1.occs, r2.occs);
      }
    }
  }

  lemma {:induction false} RestPlanned(cfg: Config, a: Snap, b: Snap, x: seq<Ground>, y: seq<Ground>)
    requires cfg.streaming ==>
               && a.idx <= |cfg.streamSizes| && SizesAll(x + y) <= cfg.streamSizes[a.idx..]
               && b.idx == a.idx + |SizesAll(x)|
    ensures cfg.streaming ==> b.idx <= |cfg.streamSizes| && SizesAll(y) <= cfg.streamSizes[b.idx..]
  {
    SizesAppend(x, y);
    if cfg.streaming {
      PrefixSplit(SizesAll(x), SizesAll(y), cfg.streamSizes[a.idx..]);
      DropDrop(cfg.streamSizes, a.idx, |SizesAll(x)|);
    }
  }

  lemma {:induction false} RestReplays(a: Snap, b: Snap, o1: seq<Occ>, o2: seq<Occ>)
    requires a.played <= |a.tape| && o1 + o2 <= a.tape[a.played..] && AdvanceTape(a, b, o1)
    ensures b.played <= |b.tape| && o2 <= b.tape[b.played..]
  {
    PrefixSplit(o1, o2, a.tape[a.played..]);
    DropDrop(a.tape, a.played, |o1|);
    assert b.tape == a.tape;
  }

  lemma {:induction false} BothRan(cfg: Config, a: Snap, b: Snap, c: Snap, ops: seq<Op>, clock: nat, e: Option<Error>)
    requires |ops| > 0 && Planned(cfg, a, PlayAll(ops, clock)) && (cfg.sizeOnly ==> !cfg.streaming)
    requires Ran(cfg, a, b, Play(ops[0], clock), None)
    requires Ran(cfg, b, c, PlayAll(ops[1..], Play(ops[0], clock).clock), e)
    ensures Ran(cfg, a, c, PlayAll(ops, clock), e)
  {
    var r1 := Play(ops[0], clock);
    var r2 := PlayAll(ops[1..], r1.clock);
    if r2.Done? {
      SizesAppend(r1.nodes, r2.nodes);
      FlatAppend(r1.nodes, r2.nodes);
      FitsAppend(r1.nodes, r2.nodes);
      if e == None {
        AdvanceThen(cfg, a, b, c, FlatAll(r1.nodes), FlatAll(r2.nodes), SizesAll(r1.nodes), SizesAll(r2.nodes),
                    r1.occs, r2.occs);
      }
    }
  }

  /** Opening a region leaves the writer ready for its body. */
  lemma {:induction false} RegionPlan(cfg: Config, a: Snap, inner: seq<Op>, clock: nat)
    requires Ready(a, Play(Region(inner), clock), clock) && Planned(cfg, a, Play(Region(inner), clock))
    ensures Ready(a, PlayAll(inner, clock), clock)
    ensures cfg.streaming ==>
              && PlayAll(inner, clock).Done?
              && a.idx < |cfg.streamSizes| && cfg.streamSizes[a.idx] == |FlatAll(PlayAll(inner, clock).nodes)|
              && Planned(cfg, a.(idx := a.idx + 1), PlayAll(inner, clock))
  {
    if cfg.streaming {
      var kids := PlayAll(inner, clock).nodes;
      OneBox(kids);
      var rest := cfg.streamSizes[a.idx..];
      PrefixSplit([|FlatAll(kids)|], SizesAll(kids), rest);
      assert rest[0] == cfg.streamSizes[a.idx];
      DropDrop(cfg.streamSizes, a.idx, 1);
    }
  }

  /** The state right after BeginLengthDelim. */
  ghost predicate Began(cfg: Config, a: Snap, b: Snap) {
    if cfg.sizeOnly then b == if cfg.recordRegions then Opened(a) else a
    else if cfg.streaming then
      a.idx < |cfg.streamSizes| && Writes(cfg, a.(idx := a.idx + 1), b, Uvarint(cfg.streamSizes[a.idx]))
    else b == a.(buf := a.buf + Reserved())
  }

  lemma {:induction false} InnerFailed(cfg: Config, a: Snap, b: Snap, c: Snap, inner: seq<Op>, clock: nat,
                                       e: Option<Error>)
    requires a.err == None && b.err == None && Began(cfg, a, b) && (cfg.sizeOnly ==> !cfg.streaming)
    requires Ran(cfg, b, c, PlayAll(inner, clock), e) && e.Some?
    ensures Ran(cfg, a, c, Play(Region(inner), clock), e)
  {
    if PlayAll(inner, clock).Done? {
      OneBox(PlayAll(inner, clock).nodes);
    }
  }

  /** EndLengthDelim has been called on c, and left d with error e. */
  ghost predicate Ended(cfg: Config, a: Snap, c: Snap, d: Snap, e: Option<Error>) {
    if cfg.sizeOnly then
      && (cfg.recordRegions ==> |c.stack| > 0 && c.stack[|c.stack| - 1] < |c.recorded|)
      && c.sizeAcc >= a.sizeAcc && d == Closed(cfg, c, c.sizeAcc - a.sizeAcc) && e == None
    else if cfg.streaming then d == c && e == None
    else
      var n := |c.buf| - |a.buf| - RESERVED_LEN;
      n >= 0 && e == d.err && if n >= TWO_35 then d.err == Some(BodyTooLarge)
                else d == c.(buf := c.buf[..|a.buf|] + Delim(c.buf[|a.buf| + RESERVED_LEN..]))
  }

  lemma {:induction false} RegionRan(cfg: Config, a: Snap, b: Snap, c: Snap, d: Snap, inner: seq<Op>, clock: nat,
                                     e: Option<Error>)
    requires a.err == None && b.err == None && a.played <= |a.tape| && (cfg.sizeOnly ==> !cfg.streaming)
    requires Began(cfg, a, b) && Ran(cfg, b, c, PlayAll(inner, clock), None) && Ended(cfg, a, c, d, e)
    requires cfg.streaming ==> cfg.streamSizes[a.idx] == |FlatAll(PlayAll(inner, clock).nodes)|
    ensures Ran(cfg, a, d, Play(Region(inner), clock), e)
  {
    var r := PlayAll(inner, clock);
    OneBox(r.nodes);
    if cfg.sizeOnly {
      CountedRegion(cfg, a, b, c, d, FlatAll(r.nodes), SizesAll(r.nodes), r.occs);
    } else if cfg.streaming {
      StreamedRegion(cfg, a, b, c, FlatAll(r.nodes), SizesAll(r.nodes), r.occs);
    } else {
      BufferedRegion(cfg, a, b, c, d, FlatAll(r.nodes), SizesAll(r.nodes), r.occs, e);
    }
  }

  lemma {:induction false} CountedRegion(cfg: Config, a: Snap, b: Snap, c: Snap, d: Snap, body: seq<byte>,
                                         sizes: seq<nat>, occs: seq<Occ>)
    requires cfg.sizeOnly && !cfg.streaming && a.err == None
    requires Began(cfg, a, b) && Advance(cfg, b, c, body, sizes, occs) && Ended(cfg, a, c, d, None)
    ensures Advance(cfg, a, d, Delim(body), [|body|] + sizes, occs)
  {
    UvarintLength(|body|);
    SlotFilled(a.recorded, sizes, |body|);
    StackPopped(a.stack, |a.recorded|);
  }

  lemma {:induction false} SlotFilled(recorded: seq<nat>, sizes: seq<nat>, n: nat)
    ensures (recorded + [0] + sizes)[|recorded| := n] == recorded + ([n] + sizes)
  {
  }

  lemma {:induction false} StackPopped(stack: seq<nat>, slot: nat)
    ensures (stack + [slot])[..|stack + [slot]| - 1] == stack
  {
  }

  lemma {:induction false} StreamedRegion(cfg: Config, a: Snap, b: Snap, c: Snap, body: seq<byte>, sizes: seq<nat>,
                                          occs: seq<Occ>)
    requires cfg.streaming && !cfg.sizeOnly && a.err == None && b.err == None && a.played <= |a.tape|
    requires Began(cfg, a, b) && Advance(cfg, b, c, body, sizes, occs) && cfg.streamSizes[a.idx] == |body|
    ensures Advance(cfg, a, c, Delim(body), [|body|] + sizes, occs)
  {
    BytesThen(cfg, a, b, c, Uvarint(|body|), body);
  }

  lemma {:induction false} BufferedRegion(cfg: Config, a: Snap, b: Snap, c: Snap, d: Snap, body: seq<byte>,
                                          sizes: seq<nat>,
                       occs: seq<Occ>, e: Option<Error>)
    requires !cfg.sizeOnly && !cfg.streaming && a.err == None
    requires Began(cfg, a, b) && Advance(cfg, b, c, body, sizes, occs) && Ended(cfg, a, c, d, e)
    ensures |body| < TWO_35 ==> e == None && Advance(cfg, a, d, Delim(body), [|body|] + sizes, occs)
    ensures |body| >= TWO_35 ==> e == Some(BodyTooLarge)
  {
    assert c.buf == a.buf + Reserved() + body;
    assert c.buf[..|a.buf|] == a.buf && c.buf[|a.buf| + RESERVED_LEN..] == body;
  }

  lemma {:induction false} ClaimRan(cfg: Config, a: Snap, b: Snap, c: Snap, n: uint64, body: seq<Op>, clock: nat)
    requires Advance(cfg, a, b, Uvarint(n), [], []) && Ran(cfg, b, c, PlayAll(body, clock), None)
    ensures Ran(cfg, a, c, Play(Measured(n, body), clock), None)
  {
    var kids, occs := PlayAll(body, clock).nodes, PlayAll(body, clock).occs;
    OneClaim(n, kids);
    AdvanceThen(cfg, a, b, c, Uvarint(n), FlatAll(kids), [], SizesAll(kids), [], occs);
    assert [] + SizesAll(kids) == SizesAll(kids) && [] + occs == occs;
  }
}
