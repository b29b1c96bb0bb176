/** Blobs: Marshal with and without compression, ReadHeader, and blobs taken one after another from a stream. */
module Framing {
  import opened Basics
  import opened Ops
  import opened Wire
  import opened Header
  import opened WriterModel
  import opened Passes
  import opened ReaderModel

  const MAX_UINT32: int := 0xFFFF_FFFF
  const STREAM_FLUSH_THRESHOLD: int := 8192

  /** The compression library as two functions; a streaming encoder's output depends on the bytes it was fed. */
  datatype Codec = Codec(compress: (nat, seq<byte>) -> seq<byte>, inflate: (nat, seq<byte>) -> Option<seq<byte>>)

  ghost predicate Inverse(codec: Codec) {
    forall m, b :: codec.inflate(m, codec.compress(m, b)) == Some(b)
  }

  /** decompressBody: the inflated size must be the declared one, or within the ceiling when none is declared. */
  function Inflate(codec: Codec, compression: nat, frame: seq<byte>, inflatedLen: Option<nat>): Option<seq<byte>> {
    match codec.inflate(compression, frame)
    case None => None
    case Some(out) =>
      if inflatedLen.Some? then (if |out| == inflatedLen.value then Some(out) else None)
      else if |out| <= MAX_UINT32 then Some(out) else None
  }

  /** What a blob holds: its header and the bytes the fields are read from. */
  function OpenBlob(codec: Codec, s: seq<byte>): Result<(Head, seq<byte>)> {
    var head :- HeadAt(s);
    if head.compression == NO_COMPRESSION then Ok((head, s[head.size..]))
    else match Inflate(codec, head.compression, s[head.size..], head.inflatedLen)
      case None => Err(CorruptCompressedBody)
      case Some(body) => Ok((head, body))
  }

  method ReadHeader(r: Reader, codec: Codec) returns (h: Result<(byte, nat, nat)>)
    requires r.Valid()
    modifies r
    ensures r.Valid()
    ensures old(r.err).Some? ==> h == Err(old(r.err).value) && r.err == old(r.err)
    ensures old(r.err) == None ==>
              match OpenBlob(codec, old(r.Rest()))
              case Ok((head, body)) =>
                h == Ok((head.flags, head.hint, head.bodyLen)) && r.err == None && r.Rest() == body
              case Err(e) => h == Err(e) && r.err == Some(e)
  {
    if r.err.Some? {
      return Err(r.err.value);
    }
    ghost var rest := r.Rest();
    if r.end - r.pos < HEADER_SIZE {
      r.SetErr(Truncated);
      return Err(r.err.value);
    }
    if Slice(r, 0, 4) != MAGIC {
      r.SetErr(BadMagic);
      return Err(r.err.value);
    }
    if r.buf[r.pos + 4] != FMT_VER_2 {
      r.SetErr(UnsupportedVer);
      return Err(r.err.value);
    }
    var flags := r.buf[r.pos + 5];
    var method_ := HeaderMethod(flags);
    if method_.Err? {
      r.SetErr(method_.error);
      return Err(r.err.value);
    }
    var (compression, extended) := method_.value;
    var size := HEADER_SIZE;
    if extended {
      size := EXTENDED_HEADER_SIZE;
      if r.end - r.pos < EXTENDED_HEADER_SIZE {
        r.SetErr(Truncated);
        return Err(r.err.value);
      }
    }
    var hint := FromLittleEndian(Slice(r, 6, 8));
    var bodyLen := FromLittleEndian(Slice(r, 8, 12));
    var inflated: Option<nat> := None;
    if extended {
      inflated := Some(FromLittleEndian(Slice(r, 12, 16)));
    }
    if bodyLen != r.end - r.pos - size {
      r.SetErr(BodyLenMismatch);
      return Err(r.err.value);
    }
    r.pos := r.pos + size;
    assert r.Rest() == rest[size..];
    if compression != NO_COMPRESSION {
      var out := Inflate(codec, compression, r.buf[r.pos..r.end], inflated);
      if out == None {
        r.SetErr(CorruptCompressedBody);
        return Err(r.err.value);
      }
      r.buf, r.pos, r.end := out.value, 0, |out.value|;
    }
    return Ok((flags, hint, bodyLen));
  }

  /** Part of the reader's current region, by offset. */
  function Slice(r: Reader, i: nat, j: nat): (s: seq<byte>)
    requires r.Valid() && i <= j <= r.end - r.pos
    reads r
    ensures s == r.Rest()[i..j]
  {
    Window(r.buf, r.pos, r.end, i, j - i);
    r.buf[r.pos + i..r.pos + j]
  }

  /** marshalUncompressed. Both passes run the same body; the second replays what the first asked for. */
  method Marshal(body: seq<Op>, hint: nat, clock: nat) returns (r: Result<seq<byte>>, calls: nat)
    ensures match PlayAll(body, clock)
            case Stuck(e) => r == Err(e)
            case Done(nodes, occs, _) =>
              && calls == clock + |occs|
              && r == if |FlatAll(nodes)| > MAX_UINT32 then Err(BodyTooLarge)
                      else Ok(BaseHeader(0, hint, |FlatAll(nodes)|) + FlatAll(nodes))
  {
    hide PlayAll, FlatAll;
    ghost var meaning := PlayAll(body, clock);
    var sw := new Writer(Config(true, false, false, [], 0, -1), clock);
    var e := RunAll(sw, body, clock);
    calls := sw.calls;
    match e {
      case Some(error) => return Err(error), calls;
      case None =>
    }
    var bodyLen := sw.sizeAcc;
    if bodyLen > MAX_UINT32 {
      return Err(BodyTooLarge), calls;
    }
    var bw := new Writer(Config(false, false, false, [], 0, -1), clock);
    bw.AdoptScratch(sw);
    bw.WriteHeader(0, hint, bodyLen);
    ghost var start := bw.S();
    SmallFits(meaning.nodes);
    assert bw.tape[bw.played..] == meaning.occs;
    e := RunAll(bw, body, clock);
    calls := bw.calls;
    match e {
      case Some(error) => return Err(error), calls;
      case None =>
    }
    assert start.buf == BaseHeader(0, hint, bodyLen);
    return Ok(bw.buf), calls;
  }

  /** marshalCompressedStreaming: a recording size pass, then a streaming pass into the encoder. The body is never held
      whole: of a body as generated code makes it the encoder is fed pieces of the threshold and at most one more small
      write. */
  method MarshalCompressed(body: seq<Op>, hint: nat, compression: nat, codec: Codec, clock: nat)
    returns (r: Result<seq<byte>>, calls: nat, fed: seq<seq<byte>>)
    requires compression == ZSTD || compression == GZIP
    ensures match PlayAll(body, clock)
            case Stuck(e) => r == Err(e)
            case Done(nodes, occs, _) =>
              && calls == clock + |occs|
              && var frame := codec.compress(compression, FlatAll(nodes));
                 r == if |FlatAll(nodes)| > MAX_UINT32 || |frame| > MAX_UINT32 then Err(BodyTooLarge)
                      else Ok(ExtendedHeader(compression + EXTENDED_BIT, hint, |frame|, |FlatAll(nodes)|) + frame)
    ensures r.Ok? ==> PlayAll(body, clock).Done? && Joined(fed) == FlatAll(PlayAll(body, clock).nodes)
    ensures PacedBody(body) ==> forall i :: 0 <= i < |fed| ==> |fed[i]| <= STREAM_FLUSH_THRESHOLD + 10
  {
    fed := [];
    hide PlayAll, FlatAll, SizesAll, ExtendedHeader;
    ghost var meaning := PlayAll(body, clock);
    var sw := new Writer(Config(true, true, false, [], 0, -1), clock);
    var e := RunAll(sw, body, clock);
    calls := sw.calls;
    match e {
      case Some(error) => return Err(error), calls, fed;
      case None =>
    }
    var rawLen := sw.sizeAcc;
    if rawLen > MAX_UINT32 {
      return Err(BodyTooLarge), calls, fed;
    }
    var sizes := sw.recordedRegions;
    assert sizes == SizesAll(meaning.nodes);
    var bw := new Writer(Config(false, false, true, sizes, STREAM_FLUSH_THRESHOLD, -1), clock);
    bw.AdoptScratch(sw);
    assert bw.tape[bw.played..] == meaning.occs && sizes[0..] == sizes;
    SizesBound(meaning.nodes);
    e := RunAll(bw, body, clock);
    calls := bw.calls;
    match e {
      case Some(error) => return Err(error), calls, fed;
      case None =>
    }
    assert bw.streamSizeIdx == |sizes|;
    assert Joined(bw.target) + bw.buf == FlatAll(meaning.nodes);
    bw.Flush();
    fed := bw.target;
    assert bw.buf == [] && Joined(bw.target) + [] == Joined(bw.target) == FlatAll(meaning.nodes);
    var frame := codec.compress(compression, Joined(bw.target));
    if |frame| > MAX_UINT32 {
      return Err(BodyTooLarge), calls, fed;
    }
    return Ok(ExtendedHeader(compression + EXTENDED_BIT, hint, |frame|, rawLen) + frame), calls, fed;
  }

  /** The same body on a counting writer, a buffered writer and a streaming writer, whatever the flush threshold: the
      count is the length of the bytes, the buffer is the bytes, and so are the flushed chunks with what is left in the
      buffer. The streaming writer is given the recorded region sizes, uses up every one of them, and never holds or
      hands over more than its threshold and one more small write. */
  method AllModes(body: seq<Op>, threshold: int, clock: nat)
    returns (counted: nat, sizes: seq<nat>, buffered: seq<byte>, chunks: seq<seq<byte>>, tail: seq<byte>, used: nat)
    requires PlayAll(body, clock).Done? && Fits(PlayAll(body, clock).nodes)
    ensures var nodes := PlayAll(body, clock).nodes;
            && counted == |FlatAll(nodes)| && buffered == FlatAll(nodes) && Joined(chunks) + tail == FlatAll(nodes)
            && sizes == SizesAll(nodes) && used == |sizes|
    ensures threshold > 0 && PacedBody(body) ==>
              |tail| <= threshold && forall i :: 0 <= i < |chunks| ==> |chunks[i]| <= threshold + 10
  {
    hide PlayAll, FlatAll, SizesAll, Fits;
    ghost var meaning := PlayAll(body, clock);
    var sw := new Writer(Config(true, true, false, [], 0, -1), clock);
    var e := RunAll(sw, body, clock);
    counted, sizes := sw.sizeAcc, sw.recordedRegions;
    assert sizes == SizesAll(meaning.nodes);
    var bw := new Writer(Config(false, false, false, [], 0, -1), clock);
    bw.AdoptScratch(sw);
    assert bw.tape[bw.played..] == meaning.occs;
    e := RunAll(bw, body, clock);
    buffered := bw.buf;
    assert [] + FlatAll(meaning.nodes) == FlatAll(meaning.nodes);
    var tw := new Writer(Config(false, false, true, sizes, threshold, -1), clock);
    tw.AdoptScratch(bw);
    assert tw.tape == meaning.occs && tw.tape[tw.played..] == meaning.occs && sizes[0..] == sizes;
    SizesFit(meaning.nodes);
    e := RunAll(tw, body, clock);
    chunks, tail, used := tw.target, tw.buf, tw.streamSizeIdx;
  }

  lemma {:induction false} SizesBound(nodes: seq<Ground>)
    requires |FlatAll(nodes)| <= MAX_UINT32
    ensures forall i :: 0 <= i < |SizesAll(nodes)| ==> SizesAll(nodes)[i] < TWO_64
  {
    forall i | 0 <= i < |SizesAll(nodes)| ensures SizesAll(nodes)[i] < TWO_64 {
      RegionBound(nodes, SizesAll(nodes)[i]);
    }
  }

  lemma {:induction false} SizesFit(nodes: seq<Ground>)
    requires Fits(nodes)
    ensures forall i :: 0 <= i < |SizesAll(nodes)| ==> SizesAll(nodes)[i] < TWO_64
  {
    forall i | 0 <= i < |SizesAll(nodes)| ensures SizesAll(nodes)[i] < TWO_64 {
      assert SizesAll(nodes)[i] in SizesAll(nodes);
    }
  }

  /** ReadHeader takes back what Marshal made: the same hint and length, and exactly the body. */
  lemma {:induction false} PlainBlobOpens(codec: Codec, hint: nat, body: seq<byte>)
    requires hint < 0x1_0000 && |body| <= MAX_UINT32
    ensures OpenBlob(codec, BaseHeader(0, hint, |body|) + body) ==
            Ok((Head(0, hint, |body|, NO_COMPRESSION, None, HEADER_SIZE), body))
  {
    HeaderFields(0, hint, |body|, body);
  }

  /** The same for a compressed blob, for any codec with an inverse. */
  lemma {:induction false} CompressedBlobOpens(codec: Codec, compression: nat, hint: nat, body: seq<byte>)
    requires compression == ZSTD || compression == GZIP
    requires Inverse(codec) && hint < 0x1_0000 && |body| <= MAX_UINT32
    requires |codec.compress(compression, body)| <= MAX_UINT32
    ensures var frame := codec.compress(compression, body);
            var flags: byte := compression + EXTENDED_BIT;
            OpenBlob(codec, ExtendedHeader(flags, hint, |frame|, |body|) + frame) ==
            Ok((Head(flags, hint, |frame|, compression, Some(|body|), EXTENDED_HEADER_SIZE), body))
  {
    var frame := codec.compress(compression, body);
    var flags: byte := compression + EXTENDED_BIT;
    var tail := LittleEndian(4, |body|);
    var blob := ExtendedHeader(flags, hint, |frame|, |body|) + frame;
    AppendAssoc(BaseHeader(flags, hint, |frame|), tail, frame);
    HeaderFields(flags, hint, |frame|, tail + frame);
    assert Pow256(4) == TWO_32 by {
      assert Pow256(3) == 0x100_0000;
    }
    LittleEndianBack(4, |body|, Pow256(4));
    assert blob[12..16] == blob[12..][..4] == tail;
    assert blob[16..] == blob[12..][4..] == frame;
    assert codec.inflate(compression, codec.compress(compression, body)) == Some(body);
  }

  /** Blobs of older writers declare no inflated length; they open all the same. */
  lemma {:induction false} LegacyBlobOpens(codec: Codec, compression: nat, hint: nat, body: seq<byte>)
    requires compression == ZSTD || compression == GZIP
    requires Inverse(codec) && hint < 0x1_0000 && |body| <= MAX_UINT32
    requires |codec.compress(compression, body)| <= MAX_UINT32
    ensures var frame := codec.compress(compression, body);
            OpenBlob(codec, BaseHeader(compression, hint, |frame|) + frame) ==
            Ok((Head(compression, hint, |frame|, compression, None, HEADER_SIZE), body))
  {
    var frame := codec.compress(compression, body);
    HeaderFields(compression, hint, |frame|, frame);
    MethodExactly(compression);
    assert codec.inflate(compression, frame) == Some(body);
  }

  /** What any accepted blob holds, for any codec: an uncompressed one the bytes behind its header; a compressed one
      what the codec makes of them, which has the declared length where one is declared. Nothing else is refused once
      the header is good. */
  lemma {:induction false} OpensExactly(codec: Codec, s: seq<byte>, h: Head, body: seq<byte>)
    requires HeadAt(s) == Ok(h)
    ensures OpenBlob(codec, s) == Ok((h, body)) <==>
            if h.flags == 0 then body == s[12..]
            else if h.flags < 3 then codec.inflate(h.flags, s[12..]) == Some(body) && |body| <= 0xFFFF_FFFF
            else codec.inflate(h.flags - 8, s[16..]) == Some(body) && h.inflatedLen == Some(|body|)
    ensures OpenBlob(codec, s).Err? ==> OpenBlob(codec, s) == Err(CorruptCompressedBody)
  {
    HeadExactly(s, h);
  }

  /** newReaderFrom on the bytes a source still has: the blob it assembles and how many bytes it consumed. */
  function TakeBlob(s: seq<byte>, maxBodyLen: int): (r: Result<(seq<byte>, nat)>)
    ensures r.Ok? ==> r.value.1 <= |s| && r.value.0 == s[..r.value.1]
  {
    if |s| < HEADER_SIZE then Err(Truncated)
    else if s[..4] != MAGIC then Err(BadMagic)
    else if s[4] != FMT_VER_2 then Err(UnsupportedVer)
    else
      var (_, extended) :- HeaderMethod(s[5]);
      var size := if extended then EXTENDED_HEADER_SIZE else HEADER_SIZE;
      if |s| < size then Err(Truncated)
      else
        var bodyLen := FromLittleEndian(s[8..12]);
        if maxBodyLen >= 0 && bodyLen > maxBodyLen then Err(AllocTooLarge)
        else if |s| - size < bodyLen then Err(Truncated)
        else Ok((s[..size + bodyLen], size + bodyLen))
  }

  /** An io.Reader over a byte string. */
  class Source {
    var data: seq<byte>

    constructor (data: seq<byte>)
      ensures this.data == data
    {
      this.data := data;
    }

    /** io.ReadFull of n bytes. */
    method ReadFull(n: nat) returns (r: Result<seq<byte>>)
      modifies this
      ensures |old(data)| < n ==> r == Err(Truncated)
      ensures n <= |old(data)| ==> r == Ok(old(data)[..n]) && data == old(data)[n..]
    {
      if |data| < n {
        data := [];
        return Err(Truncated);
      }
      r := Ok(data[..n]);
      data := data[n..];
    }
  }

  /** NewReaderFrom (maxBodyLen negative) and NewReaderFromN. */
  method NewReaderFrom(src: Source, maxBodyLen: int) returns (r: Reader?, e: Option<Error>)
    modifies src
    ensures match TakeBlob(old(src.data), maxBodyLen)
            case Ok((blob, n)) =>
              e == None && r != null && r.Valid() && r.err == None && r.Rest() == blob && src.data == old(src.data)[n..]
            case Err(x) => r == null && e == Some(x)
  {
    r := null;
    ghost var s := src.data;
    var base := src.ReadFull(HEADER_SIZE);
    if base.Err? {
      return null, Some(base.error);
    }
    var h := base.value;
    assert h[..4] == s[..4] && h[8..12] == s[8..12];
    if h[..4] != MAGIC {
      return null, Some(BadMagic);
    }
    if h[4] != FMT_VER_2 {
      return null, Some(UnsupportedVer);
    }
    var m := HeaderMethod(h[5]);
    if m.Err? {
      return null, Some(m.error);
    }
    if m.value.1 {
      var ext := src.ReadFull(EXTENDED_HEADER_SIZE - HEADER_SIZE);
      if ext.Err? {
        return null, Some(ext.error);
      }
      h := h + ext.value;
      assert h == s[..16] && src.data == s[16..];
    }
    var bodyLen := FromLittleEndian(base.value[8..12]);
    if maxBodyLen >= 0 && bodyLen > maxBodyLen {
      return null, Some(AllocTooLarge);
    }
    var rest := src.ReadFull(bodyLen);
    if rest.Err? {
      return null, Some(rest.error);
    }
    assert h + rest.value == s[..|h| + bodyLen];
    DropDrop(s, |h|, bodyLen);
    r := new Reader(h + rest.value);
    e := None;
  }

  /** A blob that ReadHeader's checks accept, in front of anything, is taken whole and alone. */
  lemma {:induction false} BlobTaken(blob: seq<byte>, rest: seq<byte>)
    requires HeadAt(blob).Ok?
    ensures TakeBlob(blob + rest, -1) == Ok((blob, |blob|))
  {
    var s := blob + rest;
    assert s[..4] == blob[..4] && s[8..12] == blob[8..12];
    assert s[..|blob|] == blob;
  }

  function Concat(blobs: seq<seq<byte>>): seq<byte> {
    if |blobs| == 0 then [] else blobs[0] + Concat(blobs[1..])
  }

  /** Taking k blobs from a stream. */
  function TakeBlobs(s: seq<byte>, k: nat): Result<(seq<seq<byte>>, seq<byte>)> {
    if k == 0 then Ok(([], s))
    else
      var (blob, n) :- TakeBlob(s, -1);
      var (more, rest) :- TakeBlobs(s[n..], k - 1);
      Ok(([blob] + more, rest))
  }

  /** Repeated reads of a concatenation give each blob in turn, consume exactly its bytes, and leave what follows. */
  lemma {:induction false} ConcatenationSplits(blobs: seq<seq<byte>>, rest: seq<byte>)
    requires forall i :: 0 <= i < |blobs| ==> HeadAt(blobs[i]).Ok?
    ensures TakeBlobs(Concat(blobs) + rest, |blobs|) == Ok((blobs, rest))
  {
    if |blobs| == 0 {
      assert Concat(blobs) + rest == rest;
    } else {
      var tail := Concat(blobs[1..]) + rest;
      AppendAssoc(blobs[0], Concat(blobs[1..]), rest);
      BlobTaken(blobs[0], tail);
      assert (blobs[0] + tail)[|blobs[0]|..] == tail;
      ConcatenationSplits(blobs[1..], rest);
      assert [blobs[0]] + blobs[1..] == blobs;
    }
  }
}
