/** What the gate does not promise: histories it lets through that leave a blob unreadable. */
module ChainLimits {
  import opened Basics
  import opened Wire
  import opened Schema
  import opened Generated
  import opened Evolution
  import opened Snapshot
  import opened Classifier
  import opened Gate
  import opened Chain

  const INT64: Shape := Basic(PInt(64, true, false, false))
  const TEXT: Shape := Basic(PString)

  /** A field under tag 1 of the one struct of a snapshot. */
  function Only(shape: Shape, deprecated: bool, compatWrite: bool): FieldDecl {
    FieldDecl("f", 1, shape, if shape == TEXT then "length-delim"
        else "varint", false, deprecated, compatWrite, false, "", "",
              None, None, "", {})
  }

  /** The integer field under a codec. */
  const CODED: FieldDecl := Only(INT64, false, false).(custom := "C", wire := "")

  function One(f: FieldDecl): Snap { Snap({"T"}, map["T" := StructDecl([f], {}, false, "")]) }

  /** The rows between two such snapshots are the rows of the field. */
  lemma {:induction false} OneRow(p: FieldDecl, c: FieldDecl, ch: Change)
    requires p.tag == c.tag == 1 && Reported(One(p), One(c), ch)
    ensures (ch.severity, ch.code) in FieldChanges(p, c)
  {
    hide FieldChanges;
    assert [p][..0] == [] && [c][..0] == [];
    assert Index([p]) == map[1 := p] && Index([c]) == map[1 := c];
  }

  lemma {:induction false} OneGood(f: FieldDecl)
    requires GoodDecl(f)
    ensures GoodSnap(One(f).structs)
  {
  }

  /** The bytes of the field with its zero value, and what a reader of another wire type makes of them. */
  lemma {:induction false} OtherWireType(w: FieldDecl, r: FieldDecl, build: Build)
    requires w == Only(INT64, w.deprecated, w.compatWrite) || w == Only(TEXT, w.deprecated, w.compatWrite)
    requires r == Only(INT64, r.deprecated, r.compatWrite) || r == Only(TEXT, r.deprecated, r.compatWrite) || r == CODED
    requires (r == CODED ==> w.shape == INT64) && (r == CODED || w.shape != r.shape) && LifecycleState(w) != Deprecated
    ensures var ws, rs := FieldsOf(One(w), build, "T", 0), FieldsOf(One(r), build, "T", 0);
            DecFields(rs, EncFields(ws, {}, ZeroFields(ws)), {}, ZeroFields(rs)) == Err(WrongWireType)
  {
    var f, g := ResolveField(One(w).structs, build, w, 0), ResolveField(One(r).structs, build, r, 0);
    var ws, rs := FieldsOf(One(w), build, "T", 0), FieldsOf(One(r), build, "T", 0);
    assert ws == [f] && rs == [g];
    OneFieldBytes(f);
    var body := EncFields(ws, {}, ZeroFields(ws));
    assert Find(rs, 1) == Some(0);
    assert WireOf(f.ty) != WireOf(g.ty);
  }

  lemma {:induction false} OneFieldBytes(f: Field)
    requires f.tag == 1 && !f.idRef && f.hops == {} && f.state != Deprecated && (f.ty.TStr? || f.ty.TInt?)
    ensures var body := EncFields([f], {}, ZeroFields([f]));
            |body| > 0 && TagAt(body) == Ok(((1, WireOf(f.ty)), |FieldKey(f)|))
  {
    var v := ZeroField(f);
    assert ZeroFields([f]) == [v] + ZeroFields([]);
    assert [f][1..] == [] && [v][1..] == [];
    assert EncFields([f], {}, [v]) == EncField(f, {}, v) + [];
    assert EncField(f, {}, v) + [] == FieldKey(f) + Payload(f, v);
    TagBack(1, WireOf(f.ty), Payload(f, v));
  }

  lemma {:induction false} Rows()
    ensures FieldChanges(Only(INT64, false, false), Only(INT64, true, false)) == [(Warning, FieldDeprecated)]
    ensures FieldChanges(Only(INT64, true, false), Only(TEXT, true, false)) == []
    ensures FieldChanges(Only(TEXT, true, false), Only(TEXT, true, true)) == [(Safe, CompatWriteAdded)]
  {
  }

  /** Deprecating a field is a warning and changing the type of a deprecated field is no row at all, so every step
      passes; a blob from before can no longer be read. */
  lemma {:induction false} DeprecatedTypeIsReused(build: Build)
    ensures var a, b, c := One(Only(INT64, false, false)), One(Only(INT64, true, false)), One(Only(TEXT, true, false));
            var ws, rs := FieldsOf(a, build, "T", 0), FieldsOf(c, build, "T", 0);
            && History([a, b, c])
            && DecFields(rs, EncFields(ws, {}, ZeroFields(ws)), {}, ZeroFields(rs)) == Err(WrongWireType)
  {
    var p, q, r := Only(INT64, false, false), Only(INT64, true, false), Only(TEXT, true, false);
    Rows();
    hide FieldChanges, DecFields, EncFields, FieldsOf, PassesPlain;
    OneStepPasses(p, q);
    OneStepPasses(q, r);
    var ss := [One(p), One(q), One(r)];
    forall i | 0 <= i && i + 1 < |ss| ensures PassesPlain(ss[i], ss[i + 1]) {
    }
    OtherWireType(p, r, build);
  }

  lemma {:induction false} OneStepPasses(p: FieldDecl, c: FieldDecl)
    requires p.tag == c.tag == 1 && forall row :: row in FieldChanges(p, c) ==> row.0 != Breaking
    ensures PassesPlain(One(p), One(c))
  {
    hide FieldChanges, Reported;
    forall raw | Reported(One(p), One(c), raw) ensures !Blocking(Stamp(false, raw)) {
      OneRow(p, c, raw);
    }
  }

  lemma {:induction false} OneStepSafe(p: FieldDecl, c: FieldDecl)
    requires p.tag == c.tag == 1 && forall row :: row in FieldChanges(p, c) ==> row.0 == Safe
    ensures OnlySafe(One(p), One(c))
  {
    hide FieldChanges, Reported;
    forall raw | Reported(One(p), One(c), raw) ensures raw.severity == Safe {
      OneRow(p, c, raw);
    }
  }

  /** With nothing above safe at any step, rolling back two steps can meet a body it cannot read: the type changed while
      the tag was off the wire, and then the tag came back. */
  lemma {:induction false} RollbackOfTwoSteps(build: Build)
    ensures var a, b, c := One(Only(INT64, true, false)), One(Only(TEXT, true, false)), One(Only(TEXT, true, true));
            var ws, rs := FieldsOf(c, build, "T", 0), FieldsOf(a, build, "T", 0);
            && SafeHistory([a, b, c])
            && DecFields(rs, EncFields(ws, {}, ZeroFields(ws)), {}, ZeroFields(rs)) == Err(WrongWireType)
  {
    var p, q, r := Only(INT64, true, false), Only(TEXT, true, false), Only(TEXT, true, true);
    SafeSteps(p, q, r);
    hide DecFields, EncFields, FieldsOf, SafeHistory;
    OtherWireType(r, p, build);
  }

  lemma {:induction false} SafeSteps(p: FieldDecl, q: FieldDecl, r: FieldDecl)
    requires p == Only(INT64, true, false) && q == Only(TEXT, true, false) && r == Only(TEXT, true, true)
    ensures SafeHistory([One(p), One(q), One(r)])
  {
    Rows();
    OneGood(p);
    OneGood(q);
    OneGood(r);
    OneStepSafe(p, q);
    OneStepSafe(q, r);
    hide *;
    ThreeSafe(One(p), One(q), One(r));
  }

  lemma {:induction false} ThreeSafe(a: Snap, b: Snap, c: Snap)
    requires GoodSnap(a.structs) && GoodSnap(b.structs) && GoodSnap(c.structs) && OnlySafe(a, b) && OnlySafe(b, c)
    ensures SafeHistory([a, b, c])
  {
    hide GoodSnap, OnlySafe;
  }

  /** Putting a live field under a codec is only a warning, so the step passes without any acknowledgement; a body from
      before can no longer be read. */
  lemma {:induction false} CodecIsAdded(build: Build)
    ensures var a, b := One(Only(INT64, false, false)), One(CODED);
            var ws, rs := FieldsOf(a, build, "T", 0), FieldsOf(b, build, "T", 0);
            && History([a, b]) && GoodSnap(a.structs) && GoodSnap(b.structs)
            && DecFields(rs, EncFields(ws, {}, ZeroFields(ws)), {}, ZeroFields(rs)) == Err(WrongWireType)
  {
    var p := Only(INT64, false, false);
    assert FieldChanges(p, CODED) == [(Warning, CustomAdded)];
    OneGood(p);
    OneGood(CODED);
    hide FieldChanges, DecFields, EncFields, FieldsOf, PassesPlain, GoodSnap;
    OneStepPasses(p, CODED);
    var ss := [One(p), One(CODED)];
    forall i | 0 <= i && i + 1 < |ss| ensures PassesPlain(ss[i], ss[i + 1]) {
    }
    OtherWireType(p, CODED, build);
  }

  const RUNE: Shape := Basic(PInt(32, true, false, true))

  /** A rune field, and the same field promised as an int16. */
  const LETTER: FieldDecl := Only(RUNE, false, false)
  const NARROW: FieldDecl := LETTER.(override_ := Some(Override(16, true)))

  /** The width table does not know rune: narrowing one reports nothing at all, and a body from before overflows. */
  lemma {:induction false} RuneNarrowsUnseen(build: Build)
    ensures var a, b := One(LETTER), One(NARROW);
            var ws, rs := FieldsOf(a, build, "T", 0), FieldsOf(b, build, "T", 0);
            && FieldChanges(LETTER, NARROW) == [] && SafeHistory([a, b])
            && Sendable(TStruct(ws), VStruct({}, [VInt(40000)]))
            && DecFields(rs, EncFields(ws, {}, [VInt(40000)]), {}, ZeroFields(rs)) == Err(IntegerOverflow)
  {
    OneGood(LETTER);
    OneGood(NARROW);
    assert FieldChanges(LETTER, NARROW) == [];
    OneStepSafe(LETTER, NARROW);
    LetterOverflows(build);
    hide DecFields, EncFields, FieldsOf, OnlySafe, GoodSnap, Has, CanEnc, GoodTy, SafeHistory;
    TwoSafe(One(LETTER), One(NARROW));
  }

  lemma {:induction false} TwoSafe(a: Snap, b: Snap)
    requires GoodSnap(a.structs) && GoodSnap(b.structs) && OnlySafe(a, b)
    ensures SafeHistory([a, b])
  {
    hide GoodSnap, OnlySafe;
  }

  function LetterField(wire: nat): Field { Field(1, TInt(IntTy(32, wire, true)), false, Active, {}) }

  lemma {:induction false} LetterFields(build: Build)
    ensures FieldsOf(One(LETTER), build, "T", 0) == [LetterField(32)]
    ensures FieldsOf(One(NARROW), build, "T", 0) == [LetterField(16)]
  {
  }

  lemma {:induction false} LetterSendable()
    ensures Sendable(TStruct([LetterField(32)]), VStruct({}, [VInt(40000)]))
  {
    var w := LetterField(32);
    assert HasField(w, {}, VInt(40000)) && CanEncField(w, VInt(40000)) && GoodField(w);
  }

  lemma {:induction false} LetterBytes()
    ensures EncFields([LetterField(32)], {}, [VInt(40000)]) == FieldKey(LetterField(32)) + IntBytes(40000, true)
  {
    var w := LetterField(32);
    assert [w][1..] == [] && [VInt(40000)][1..] == [];
    assert EncFields([w], {}, [VInt(40000)]) == EncField(w, {}, VInt(40000)) + [];
    assert EncField(w, {}, VInt(40000)) + [] == FieldKey(w) + Enc(w.ty, VInt(40000));
  }

  lemma {:induction false} LetterOverflows(build: Build)
    ensures var ws, rs := FieldsOf(One(LETTER), build, "T", 0), FieldsOf(One(NARROW), build, "T", 0);
            && Sendable(TStruct(ws), VStruct({}, [VInt(40000)]))
            && DecFields(rs, EncFields(ws, {}, [VInt(40000)]), {}, ZeroFields(rs)) == Err(IntegerOverflow)
  {
    var w, r, body := LetterField(32), LetterField(16), IntBytes(40000, true);
    LetterFields(build);
    LetterSendable();
    LetterBytes();
    TagBack(1, VARINT, body);
    IntBack(40000, IntTy(32, 32, true), []);
    assert body + [] == body;
    assert DecInt(r.ty.num, body) == Err(IntegerOverflow);
    hide EncFields, Has, CanEnc, GoodTy, IntBytes, TagAt, DecInt, FieldsOf;
    Pieces(FieldKey(w), body);
    assert Find([r], 1) == Some(0);
  }
}
