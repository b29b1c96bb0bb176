/** What a diff says about old bytes: the gate, the operator's and the source's acknowledgements, and why a diff with
    nothing above safe leaves every body readable in both directions. */
module Gate {
  import opened Basics
  import opened Schema
  import opened Projection
  import opened Snapshot
  import opened Classifier

  /** CIDiffWithOptions: the rows, acknowledged by the operator where the flag allows it, and whether the gate
      blocks. */
  method CIDiffWithOptions(prev: Snap, curr: Snap, allowStop: bool) returns (d: Diff, blocks: bool)
    ensures fresh(d)
    ensures forall ch :: ch in d.changes <==> exists raw :: Reported(prev, curr, raw) && ch == Stamp(allowStop, raw)
    ensures blocks <==> Blocks(prev, curr, allowStop)
  {
    hide Reported, Stamp, Blocking;
    d := Classify(prev, curr);
    ghost var rows := d.changes;
    if allowStop {
      StampAll(d);
    } else {
      forall ch ensures Stamp(false, ch) == ch {
        NoStamp(ch);
      }
    }
    blocks := AnyBlocking(d.changes);
    StampedRows(prev, curr, allowStop, rows, d.changes, blocks);
  }

  lemma {:induction false} NoStamp(ch: Change)
    ensures Stamp(false, ch) == ch
  {
  }

  /** Rows are acknowledged in place. */
  method StampAll(d: Diff)
    modifies d
    ensures |d.changes| == |old(d.changes)|
    ensures forall j :: 0 <= j < |d.changes| ==> d.changes[j] == Stamp(true, old(d.changes)[j])
  {
    var i := 0;
    while i < |d.changes|
      invariant 0 <= i <= |d.changes| == |old(d.changes)|
      invariant forall j :: 0 <= j < |d.changes| ==>
        d.changes[j] == if j < i then Stamp(true, old(d.changes)[j]) else old(d.changes)[j]
    {
      var c := d.changes[i];
      if c.code == CompatWriteRemoved && c.acknowledged == "" {
        d.changes := d.changes[i := c.(acknowledged := FLAG)];
      }
      i := i + 1;
    }
  }

  method AnyBlocking(changes: seq<Change>) returns (blocks: bool)
    ensures blocks <==> exists ch :: ch in changes && Blocking(ch)
  {
    blocks := false;
    var i := 0;
    while i < |changes| && !blocks
      invariant 0 <= i <= |changes|
      invariant blocks <==> exists j :: 0 <= j < i && Blocking(changes[j])
    {
      blocks := changes[i].severity == Breaking && changes[i].acknowledged == "";
      i := i + 1;
    }
  }

  const FLAG: string := "--allow-stop-compat-write"

  function Stamp(allowStop: bool, ch: Change): Change {
    if allowStop && ch.code == CompatWriteRemoved && ch.acknowledged == "" then ch.(acknowledged := FLAG) else ch
  }

  predicate Blocking(ch: Change) { ch.severity == Breaking && ch.acknowledged == "" }

  ghost predicate Blocks(prev: Snap, curr: Snap, allowStop: bool) {
    exists raw :: Reported(prev, curr, raw) && Blocking(Stamp(allowStop, raw))
  }

  lemma {:induction false} StampedRows(prev: Snap, curr: Snap, allowStop: bool, rows: seq<Change>, out: seq<Change>,
                                       blocks: bool)
    requires |out| == |rows| && forall j :: 0 <= j < |rows| ==> out[j] == Stamp(allowStop, rows[j])
    requires forall ch :: ch in rows <==> Reported(prev, curr, ch)
    requires blocks <==> exists ch :: ch in out && Blocking(ch)
    ensures forall ch :: ch in out <==> exists raw :: Reported(prev, curr, raw) && ch == Stamp(allowStop, raw)
    ensures blocks <==> Blocks(prev, curr, allowStop)
  {
    hide Reported, Stamp, Blocking;
    forall ch ensures ch in out <==> exists raw :: Reported(prev, curr, raw) && ch == Stamp(allowStop, raw) {
      if ch in out {
        var j :| 0 <= j < |out| && out[j] == ch;
        assert rows[j] in rows;
      }
      if raw :| Reported(prev, curr, raw) && ch == Stamp(allowStop, raw) {
        var j :| 0 <= j < |rows| && rows[j] == raw;
        assert out[j] == ch;
      }
    }
  }

  ghost predicate OnlySafe(prev: Snap, curr: Snap) { forall ch :: Reported(prev, curr, ch) ==> ch.severity == Safe }

  ghost predicate Widened(prev: Snap, curr: Snap) { exists ch :: Reported(prev, curr, ch) && ch.code == WireWidened }

  lemma {:induction false} IndexDistinct(fs: seq<FieldDecl>, i: nat)
    requires DistinctDecls(fs) && i < |fs|
    ensures fs[i].tag in Index(fs) && Index(fs)[fs[i].tag] == fs[i]
    decreases |fs|
  {
    if i < |fs| - 1 {
      IndexDistinct(fs[..|fs| - 1], i);
    }
  }

  /** A byte or rune under any name: spellings the width table does not list. */
  predicate Unlisted(f: FieldDecl) {
    Leaf(f.shape).Basic? && Leaf(f.shape).prim.PInt? && Leaf(f.shape).prim.alias && !Leaf(f.shape).prim.platform
  }

  /** The width the classifier reads off a declaration is the width the codec uses, where it reads one. */
  lemma {:induction false} EffectiveIsWire(f: FieldDecl)
    requires GoodDecl(f) && Leaf(f.shape).Basic? && Leaf(f.shape).prim.PInt?
    ensures EffectiveWidth(f) == if f.override_.None? && Unlisted(f) then None else Some(WireBits(f))
  {
    var s := if f.shape.IdOf? then f.shape.id else f.shape;
    assert GoodShape(s);
    if s.Named? {
      assert !s.under.Named? && Strip(s) == Strip(s.under) == s.under;
    }
    assert DefaultWidth(s) == DefaultWidth(f.shape);
  }

  /** An unlisted kind without an override gets a narrower one: no row says so. */
  predicate NarrowsUnseen(p: FieldDecl, c: FieldDecl) {
    && Unlisted(p) && p.shape == c.shape
    && p.override_.None? && c.override_.Some? && c.override_.value.bits < Leaf(p.shape).prim.bits
  }

  predicate GetsCodec(p: FieldDecl, c: FieldDecl) { p.custom == "" && c.custom != "" }

  /** With nothing breaking reported about a tag that is on the wire, everything but its widths and a new codec is as it
      was. */
  lemma {:induction false} PlainRows(p: FieldDecl, c: FieldDecl)
    requires !ShapeFrozen(p, c) && forall row :: row in FieldChanges(p, c) ==> row.0 != Breaking
    ensures p.shape == c.shape && p.optional == c.optional && p.cycleBreak == c.cycleBreak
    ensures p.custom == c.custom || GetsCodec(p, c)
    ensures p.override_ != c.override_ && p.custom == c.custom == "" ==>
            forall row :: row in WidthChanges(EffectiveWidth(p), EffectiveWidth(c)) ==> row in FieldChanges(p, c)
  {
    hide ShapeFrozen, AliasChanges, FlattenChanges, LifecycleChanges, WidthChanges, EffectiveWidth;
    var rows := FieldChanges(p, c);
    assert p.shape != c.shape ==> (Breaking, TypeChanged) in rows;
    assert p.optional != c.optional ==> (Breaking, OptionalChanged) in rows;
    assert p.cycleBreak != c.cycleBreak ==>
        (Breaking, if c.cycleBreak then CycleBreakAdded else CycleBreakRemoved) in rows;
    var custom := CustomChanges(p.custom, c.custom)[0];
    assert p.custom != c.custom ==> custom in rows;
  }

  /** One tag on both sides, on the wire on at least one of them, with nothing breaking reported about it: it keeps its
      kind of value at no less width, unless it got a codec or narrowed out of the table's sight. */
  lemma {:induction false} PlainField(p: FieldDecl, c: FieldDecl)
    requires GoodDecl(p) && GoodDecl(c) && !ShapeFrozen(p, c)
    requires forall row :: row in FieldChanges(p, c) ==> row.0 != Breaking
    ensures SameKind(p, c, true) <==> !GetsCodec(p, c) && !NarrowsUnseen(p, c)
    ensures SameKind(c, p, false) <==> !GetsCodec(p, c)
    ensures (Safe, WireWidened) !in FieldChanges(p, c) && !GetsCodec(p, c) && !NarrowsUnseen(c, p) ==>
            SameKind(c, p, true)
  {
    hide FieldChanges, GoodShape, EffectiveWidth;
    PlainRows(p, c);
    if p.custom == c.custom && p.override_ != c.override_ {
      EffectiveIsWire(p);
      EffectiveIsWire(c);
      if EffectiveWidth(p).Some? && EffectiveWidth(c).Some? {
        assert WidthChanges(EffectiveWidth(p), EffectiveWidth(c))[0] in FieldChanges(p, c);
      }
    }
  }

  /** With nothing above safe reported about it a tag on the wire gets no codec. */
  lemma {:induction false} SafeField(p: FieldDecl, c: FieldDecl)
    requires GoodDecl(p) && GoodDecl(c) && !ShapeFrozen(p, c)
    requires forall row :: row in FieldChanges(p, c) ==> row.0 == Safe
    ensures SameKind(p, c, true) <==> !NarrowsUnseen(p, c)
    ensures SameKind(p, c, false) && SameKind(c, p, false)
    ensures (Safe, WireWidened) !in FieldChanges(p, c) && !NarrowsUnseen(c, p) ==> SameKind(c, p, true)
  {
    assert GetsCodec(p, c) ==> (Warning, CustomAdded) in FieldChanges(p, c) by {
      hide ShapeFrozen, AliasChanges, FlattenChanges, LifecycleChanges, WidthChanges, EffectiveWidth;
    }
    hide FieldChanges;
    PlainField(p, c);
  }

  lemma {:induction false} SafeReported(prev: Snap, curr: Snap, k: string, tag: nat, row: (Severity, Code))
    requires OnlySafe(prev, curr) && k in prev.structs && k in curr.structs
    requires FieldReported(k, prev.structs[k], curr.structs[k], tag, row)
    ensures row.0 == Safe
    ensures row.1 == WireWidened ==> Widened(prev, curr)
  {
    hide FieldReported;
    var ch := Acknowledge(curr.structs[k].allowBreaking, row, OnField(k, tag));
    assert Reported(prev, curr, ch);
  }

  /** A tag live in prev narrows out of the table's sight. */
  ghost predicate NarrowedUnseen(prev: Snap, curr: Snap) {
    exists k, i: nat :: NarrowedAt(prev, curr, k, i)
  }

  predicate NarrowedAt(prev: Snap, curr: Snap, k: string, i: nat) {
    && k in prev.structs && k in curr.structs && i < |prev.structs[k].fields|
    && var p := prev.structs[k].fields[i];
       var j := FindDecl(curr.structs[k].fields, p.tag);
       LifecycleState(p) != Deprecated && j.Some? && NarrowsUnseen(p, curr.structs[k].fields[j.value])
  }

  /** The same tag in a struct of both snapshots, on the wire in one of them. */
  lemma {:induction false} SafePair(prev: Snap, curr: Snap, k: string, i: nat, j: nat)
    requires OnlySafe(prev, curr) && k in prev.structs && k in curr.structs
    requires GoodSnap(prev.structs) && GoodSnap(curr.structs)
    requires i < |prev.structs[k].fields| && j < |curr.structs[k].fields|
    requires prev.structs[k].fields[i].tag == curr.structs[k].fields[j].tag
    requires !ShapeFrozen(prev.structs[k].fields[i], curr.structs[k].fields[j])
    ensures var p, c := prev.structs[k].fields[i], curr.structs[k].fields[j];
            && SameKind(p, c, false) && SameKind(c, p, false) && (SameKind(p, c, true) <==> !NarrowsUnseen(p, c))
            && (Widened(prev, curr) || NarrowsUnseen(c, p) || SameKind(c, p, true))
  {
    hide OnlySafe, SameKind, Widened, NarrowsUnseen;
    var ps, cs := prev.structs[k].fields, curr.structs[k].fields;
    IndexDistinct(ps, i);
    IndexDistinct(cs, j);
    forall row | row in FieldChanges(ps[i], cs[j])
      ensures row.0 == Safe && (row.1 == WireWidened ==> Widened(prev, curr))
    {
      SafeReported(prev, curr, k, ps[i].tag, row);
    }
    SafeField(ps[i], cs[j]);
  }

  /** A live tag is neither removed nor taken off the wire by a diff with nothing above safe. */
  lemma {:induction false} SafeLive(prev: Snap, curr: Snap, k: string, i: nat)
    requires OnlySafe(prev, curr) && GoodSnap(prev.structs) && GoodSnap(curr.structs)
    requires k in prev.structs && i < |prev.structs[k].fields|
             && LifecycleState(prev.structs[k].fields[i]) != Deprecated
    ensures k in curr.structs
    ensures var j := FindDecl(curr.structs[k].fields, prev.structs[k].fields[i].tag);
            j.Some? && LifecycleState(curr.structs[k].fields[j.value]) != Deprecated
  {
    hide OnlySafe, SameKind, Index;
    SafeKeepsStructs(prev, curr, k);
    var ps, cs := prev.structs[k].fields, curr.structs[k].fields;
    var p := ps[i];
    IndexDecl(prev.structs, k, i);
    match FindDecl(cs, p.tag)
    case None =>
      NotIndexed(cs, p.tag);
      SafeReported(prev, curr, k, p.tag, RemovedChange(p));
    case Some(j) =>
      IndexDecl(curr.structs, k, j);
      if LifecycleState(cs[j]) == Deprecated {
        assert LifecycleChanges(LifecycleState(p), Deprecated)[0] in FieldChanges(p, cs[j]);
        SafeReported(prev, curr, k, p.tag, LifecycleChanges(LifecycleState(p), Deprecated)[0]);
      }
  }

  lemma {:induction false} IndexDecl(env: map<string, StructDecl>, k: string, i: nat)
    requires GoodSnap(env) && k in env && i < |env[k].fields|
    ensures var f := env[k].fields[i]; f.tag in Index(env[k].fields) && Index(env[k].fields)[f.tag] == f
  {
    IndexDistinct(env[k].fields, i);
  }

  lemma {:induction false} NotIndexed(fs: seq<FieldDecl>, tag: nat)
    requires forall i :: 0 <= i < |fs| ==> fs[i].tag != tag
    ensures tag !in Index(fs)
  {
  }

  /** A diff with nothing above safe: no written tag is lost, both directions agree on every tag that may travel, and
      the new schema promises the old widths exactly when nothing narrowed out of sight. */
  lemma {:induction false} SafeKeeps(prev: Snap, curr: Snap)
    requires OnlySafe(prev, curr) && GoodSnap(prev.structs) && GoodSnap(curr.structs)
    ensures Retains(prev.structs, curr.structs)
    ensures Keeps(prev.structs, curr.structs, false) && Keeps(curr.structs, prev.structs, false)
    ensures Keeps(prev.structs, curr.structs, true) <==> !NarrowedUnseen(prev, curr)
    ensures Widened(prev, curr) || NarrowedUnseen(curr, prev) || Keeps(curr.structs, prev.structs, true)
  {
    hide SameKind, GoodSnap, OnlySafe, Widened, NarrowsUnseen, LifecycleState;
    forall k | k in prev.structs ensures k in curr.structs {
      SafeKeepsStructs(prev, curr, k);
    }
    forall k, i | k in prev.structs && 0 <= i < |prev.structs[k].fields|
        && LifecycleState(prev.structs[k].fields[i]) != Deprecated
      ensures FindDecl(curr.structs[k].fields, prev.structs[k].fields[i].tag).Some?
      ensures var p := prev.structs[k].fields[i];
              var c := curr.structs[k].fields[FindDecl(curr.structs[k].fields, p.tag).value];
              SameKind(p, c, false) && (SameKind(p, c, true) <==> !NarrowedAt(prev, curr, k, i))
    {
      SafeLive(prev, curr, k, i);
      SafePair(prev, curr, k, i, FindDecl(curr.structs[k].fields, prev.structs[k].fields[i].tag).value);
    }
    forall k, j | k in curr.structs && k in prev.structs && 0 <= j < |curr.structs[k].fields|
      && LifecycleState(curr.structs[k].fields[j]) != Deprecated
      && FindDecl(prev.structs[k].fields, curr.structs[k].fields[j].tag).Some?
      ensures var p := prev.structs[k].fields[FindDecl(prev.structs[k].fields, curr.structs[k].fields[j].tag).value];
              && SameKind(curr.structs[k].fields[j], p, false)
              && (Widened(prev, curr) || NarrowedAt(curr, prev, k, j) || SameKind(curr.structs[k].fields[j], p, true))
    {
      SafePair(prev, curr, k, FindDecl(prev.structs[k].fields, curr.structs[k].fields[j].tag).value, j);
    }
  }

  /** The fields of a struct of a snapshot, as its build's generated code sees them. */
  function FieldsOf(s: Snap, build: Build, k: string, n: nat): seq<Field>
    requires k in s.structs
  {
    ResolveFields(s.structs, build, s.structs[k].fields, n)
  }

  lemma {:induction false} SafeKeepsStructs(prev: Snap, curr: Snap, k: string)
    requires OnlySafe(prev, curr) && k in prev.structs
    ensures k in curr.structs
  {
    assert k !in curr.structs ==> Reported(prev, curr, Change(Breaking, StructRemoved, OnStruct(k), ""));
  }

  lemma {:induction false} GoodStruct(env: map<string, StructDecl>, build: Build, k: string, n: nat)
    requires GoodSnap(env) && k in env
    ensures GoodFields(ResolveFields(env, build, env[k].fields, n))
  {
    ResolveGoodFields(env, build, env[k].fields, n);
  }

  /** Two snapshots that agree on every tag that may travel can read each other's bodies. */
  lemma {:induction false} PairReads(w: Snap, r: Snap, wider: bool, all: bool, a: Build, b: Build, k: string, n: nat,
                                     live: set<nat>, vs: seq<Val>)
    requires Pair(w.structs, r.structs, wider, all) && k in w.structs && k in r.structs
    ensures Readable(FieldsOf(w, a, k, n), FieldsOf(r, b, k, n), live, vs, !wider, all)
  {
    hide Readable, Keeps, Retains, GoodSnap, GoodDecl, ResolveFields;
    FieldsCarry(w.structs, r.structs, wider, all, a, b, k, n);
    GoodStruct(w.structs, a, k, n);
    GoodStruct(r.structs, b, k, n);
    CarriedReadable(FieldsOf(w, a, k, n), FieldsOf(r, b, k, n), live, vs, !wider, all);
  }

  /** A diff with nothing above safe. Every body of any struct written under the old schema decodes under the new one
      with every written value kept, unless an integer narrowed out of the table's sight overflows; every body written
      under the new schema decodes under the old one to its projection, or overflows, and that only when a widened
      integer is reported or one widened out of sight. Only the slice budget can refuse otherwise. */
  lemma {:induction false} SafeUpgrade(prev: Snap, curr: Snap, a: Build, b: Build, k: string, n: nat, live: set<nat>,
                                       vs: seq<Val>)
    requires OnlySafe(prev, curr) && GoodSnap(prev.structs) && GoodSnap(curr.structs) && k in prev.structs
    ensures k in curr.structs
    ensures Readable(FieldsOf(prev, a, k, n), FieldsOf(curr, b, k, n), live, vs, NarrowedUnseen(prev, curr), true)
    ensures Readable(FieldsOf(curr, b, k, n), FieldsOf(prev, a, k, n), live, vs,
                     Widened(prev, curr) || NarrowedUnseen(curr, prev), false)
  {
    hide Keeps, Readable, OnlySafe, Widened, GoodSnap, NarrowedUnseen, Retains;
    SafeKeepsStructs(prev, curr, k);
    SafeKeeps(prev, curr);
    PairReads(prev, curr, !NarrowedUnseen(prev, curr), true, a, b, k, n, live, vs);
    PairReads(curr, prev, !(Widened(prev, curr) || NarrowedUnseen(curr, prev)), false, b, a, k, n, live, vs);
  }

  /** A struct's type as its build really has it: at the depth of its rank. */
  function RealFields(s: Snap, build: Build, rank: map<string, nat>, k: string): seq<Field>
    requires k in s.structs && k in rank
  {
    FieldsOf(s, build, k, rank[k])
  }

  /** A safe upgrade between the real types of two acyclic snapshots. */
  lemma {:induction false} SafeUpgradeSettled(prev: Snap, curr: Snap, a: Build, b: Build, k: string,
                                              p: map<string, nat>,
                                              c: map<string, nat>, live: set<nat>, vs: seq<Val>)
    requires OnlySafe(prev, curr) && GoodSnap(prev.structs) && GoodSnap(curr.structs) && k in prev.structs
             && k in curr.structs
    requires Falls(prev.structs, p) && Falls(curr.structs, c) && k in p && k in c
    ensures Readable(RealFields(prev, a, p, k), RealFields(curr, b, c, k), live, vs, NarrowedUnseen(prev, curr), true)
    ensures Readable(RealFields(curr, b, c, k), RealFields(prev, a, p, k), live, vs,
                     Widened(prev, curr) || NarrowedUnseen(curr, prev), false)
  {
    hide Readable, OnlySafe, Widened, GoodSnap, NarrowedUnseen, Falls;
    var n := if p[k] > c[k] then p[k] else c[k];
    SettledFields(prev.structs, a, p, k, p[k], n);
    SettledFields(curr.structs, b, c, k, c[k], n);
    SafeUpgrade(prev, curr, a, b, k, n, live, vs);
  }
}
