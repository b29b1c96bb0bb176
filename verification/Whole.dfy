/** A root value through a whole blob: marshalled at any clock, opened, decoded. And why a length computed beforehand is
    only ever written for types that reach no materialising codec. */
module Whole {
  import opened Basics
  import opened Varint
  import opened Ops
  import opened Header
  import opened Framing
  import opened Schema
  import opened Generated
  import opened RoundTrip
  import opened Emit
  import opened Lockstep

  /** Whatever the codecs answer, Marshal's blob opens to the encoding of one value ws: the root with each codec's
      answer of this marshal in its place. Decoding gives that value back exactly when it survives. */
  lemma {:induction false} MarshalledRoot(fs: seq<Field>, live: set<nat>, vs: seq<Val>, clock: nat, hint: nat,
                                          codec: Codec) returns (ws: seq<Val>)
    requires GoodFields(fs) && Has(TStruct(fs), VStruct(live, vs)) && hint < 0x1_0000
    ensures match PlayAll(EmitFields(fs, live, vs), clock)
            case Stuck(e) => Excuse(e, MatFields(fs)) && !CanEmit(TStruct(fs), VStruct(live, vs))
            case Done(nodes, _, _) =>
              && FieldsTook(fs, live, vs, ws)
              && (|EncFields(fs, live, ws)| <= MAX_UINT32 ==>
                  && AllTruthful(nodes) && FlatAll(nodes) == EncFields(fs, live, ws)
                  && var body := FlatAll(nodes);
                  && OpenBlob(codec, BaseHeader(0, hint, |body|) + body)
                     == Ok((Head(0, hint, |body|, NO_COMPRESSION, None, HEADER_SIZE), body))
                  && (DecFields(fs, body, {}, ZeroFields(fs)) == Ok((live, ws))
                      <==> Survives(TStruct(fs), VStruct(live, ws))))
  {
    hide DecFields, EncFields, EmitFields, Survives, OpenBlob, PlayAll;
    ws := EmitsFields(fs, live, vs, clock);
    match PlayAll(EmitFields(fs, live, vs), clock)
    case Stuck(_) => StructTook(fs, live, vs, ws, false);
    case Done(nodes, _, _) =>
      StructTook(fs, live, vs, ws, true);
      if |EncFields(fs, live, ws)| <= MAX_UINT32 {
        BodyRoundTrips(fs, live, ws);
        PlainBlobOpens(codec, hint, FlatAll(nodes));
      }
  }

  /** A codec that answers differently on its second call. */
  function Fickle(call: nat): Option<blob> { Some(if call == 0 then [] else [7]) }

  /** What SizeGSBM makes of a struct whose one field is fickle. */
  lemma {:induction false} FickleSize(f: Field)
    requires f == Field(1, TCustom(Materializing, 0), false, Active, {})
    ensures SizeFields([f], {}, [VLive(Fickle)]) == 2 && MatFields([f])
  {
    var v := VLive(Fickle);
    assert Fickle(0) == Some([]) && Size(f.ty, v) == SizeDelim(0) == 1;
    assert SizePayload(f, v) == 1 && Written(f, {}, v);
    assert SizeField(f, {}, v) == VarintLen(10) + 1 == 2;
    assert SizeFields([f], {}, [v]) == 2 + SizeFields([], {}, []);
    assert MatField([f][0]);
  }

  /** What its MarshalGSBM writes at the second call of the codec. */
  lemma {:induction false} FicklePlay(f: Field)
    requires f == Field(1, TCustom(Materializing, 0), false, Active, {})
    ensures HasField(f, {}, VLive(Fickle))
    ensures PlayAll(EmitFields([f], {}, [VLive(Fickle)]), 1).Done?
    ensures PlayAll(EmitFields([f], {}, [VLive(Fickle)]), 1).nodes == [Atom(Uvarint(10)), Atom(Delim([7]))]
  {
    var v, cached := VLive(Fickle), [Cached(0, Values, Fickle)];
    assert EmitField(f, {}, v) == [Tag(1, 2)] + EmitVal(f.ty, v) && EmitVal(f.ty, v) == cached;
    assert EmitFields([f], {}, [v]) == [Tag(1, 2)] + cached + [] == [Tag(1, 2)] + cached;
    OnePlay(cached[0], 1);
    LeafThen(Tag(1, 2), cached, 1);
  }

  /** With WriteLength(SizeGSBM) in front of a type that does reach a materialising codec, the length would be false. */
  lemma {:induction false} MeasuredBeforehandLies()
    ensures var fs := [Field(1, TCustom(Materializing, 0), false, Active, {})];
            var vs := [VLive(Fickle)];
            && HasField(fs[0], {}, vs[0]) && MatFields(fs)
            && var o := PlayAll(Wrap(true, SizeFields(fs, {}, vs), EmitFields(fs, {}, vs)), 1);
               o.Done? && !AllTruthful(o.nodes)
  {
    var f := Field(1, TCustom(Materializing, 0), false, Active, {});
    FickleSize(f);
    FicklePlay(f);
    hide EmitFields, SizeFields, HasField, MatFields;
    var ops, kids := EmitFields([f], {}, [VLive(Fickle)]), [Atom(Uvarint(10)), Atom(Delim([7]))];
    OnePlay(Measured(2, ops), 1);
    assert Uvarint(10) == [10] && Uvarint(1) == [1];
    assert kids[1..] == [Atom(Delim([7]))] && kids[1..][1..] == [];
    assert FlatAll(kids) == [10] + (Delim([7]) + []);
    assert AllTruthful([Claim(2, kids)]) == Truthful(Claim(2, kids));
  }
}
