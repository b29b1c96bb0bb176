/** The blob header: magic, version, flags, hint and lengths. */
module Header {
  import opened Basics
  import opened Ops
  import opened Wire

  const MAGIC: seq<byte> := [71, 83, 66, 77]
  const FMT_VER_2: byte := 2
  const HEADER_SIZE: nat := 12
  const EXTENDED_HEADER_SIZE: nat := 16
  const EXTENDED_BIT: byte := 8
  const NO_COMPRESSION: nat := 0
  const ZSTD: nat := 1
  const GZIP: nat := 2

  function BaseHeader(flags: byte, hint: nat, bodyLen: nat): seq<byte> {
    MAGIC + [FMT_VER_2, flags] + LittleEndian(2, hint) + LittleEndian(4, bodyLen)
  }

  function ExtendedHeader(flags: byte, hint: nat, bodyLen: nat, inflatedLen: nat): seq<byte> {
    BaseHeader(flags, hint, bodyLen) + LittleEndian(4, inflatedLen)
  }

  lemma {:induction false} HeaderLength(flags: byte, hint: nat, bodyLen: nat)
    ensures |BaseHeader(flags, hint, bodyLen)| == HEADER_SIZE
  {
    LittleEndianLength(2, hint);
    LittleEndianLength(4, bodyLen);
  }

  /** headerCompressionMethod: the method and whether four more header bytes follow. */
  function HeaderMethod(flags: byte): Result<(nat, bool)> {
    if flags >= 16 then Err(ReservedFlags)
    else if flags % 8 > GZIP then Err(ReservedFlags)
    else if flags >= EXTENDED_BIT && flags % 8 == NO_COMPRESSION then Err(ReservedFlags)
    else Ok((flags % 8, flags >= EXTENDED_BIT))
  }

  /** A parsed header; size is its own length in bytes. */
  datatype Head = Head(flags: byte, hint: nat, bodyLen: nat, compression: nat, inflatedLen: Option<nat>, size: nat)

  /** ReadHeader's checks on the bytes of a blob, in its order. */
  function HeadAt(s: seq<byte>): (r: Result<Head>)
    ensures r.Ok? ==> r.value.size + r.value.bodyLen == |s|
  {
    if |s| < HEADER_SIZE then Err(Truncated)
    else if s[..4] != MAGIC then Err(BadMagic)
    else if s[4] != FMT_VER_2 then Err(UnsupportedVer)
    else
      var (compression, extended) :- HeaderMethod(s[5]);
      var size := if extended then EXTENDED_HEADER_SIZE else HEADER_SIZE;
      if |s| < size then Err(Truncated)
      else
        var bodyLen := FromLittleEndian(s[8..12]);
        var inflated := if extended then Some(FromLittleEndian(s[12..16])) else None;
        if bodyLen != |s| - size then Err(BodyLenMismatch)
        else Ok(Head(s[5], FromLittleEndian(s[6..8]), bodyLen, compression, inflated, size))
  }

  /** Two and four bytes as a number, the low byte first. */
  function Pair(a: nat, b: nat): nat { a + 0x100 * b }

  function Quad(a: nat, b: nat, c: nat, d: nat): nat { a + 0x100 * b + 0x1_0000 * c + 0x100_0000 * d }

  /** The sixteen bytes: "GSBM", version 2, the flags, then hint and lengths, low byte first. */
  lemma {:induction false} HeaderSpelled(flags: byte, a: byte, b: byte, n: seq<byte>, m: seq<byte>)
    requires |n| == |m| == 4
    ensures ExtendedHeader(flags, Pair(a, b), Quad(n[0], n[1], n[2], n[3]), Quad(m[0], m[1], m[2], m[3]))
            == [0x47, 0x53, 0x42, 0x4D, 2, flags, a, b] + n + m
  {
    assert LittleEndian(2, Pair(a, b)) == [a, b] by {
      LittleEndianForth([a, b]);
      assert [a, b][1..] == [b] && [b][1..] == [];
    }
    FourBytes(n);
    FourBytes(m);
  }

  lemma {:induction false} FourBytes(n: seq<byte>)
    requires |n| == 4
    ensures LittleEndian(4, Quad(n[0], n[1], n[2], n[3])) == n
  {
    FromFour(n);
    hide FromLittleEndian, LittleEndian;
    LittleEndianForth(n);
  }

  lemma {:induction false} FromFour(n: seq<byte>)
    requires |n| == 4
    ensures FromLittleEndian(n) == Quad(n[0], n[1], n[2], n[3])
  {
    FromFirst(n);
    FromFirst(n[1..]);
    FromFirst(n[2..]);
    FromFirst(n[3..]);
    hide FromLittleEndian;
    assert n[1..][1..] == n[2..] && n[2..][1..] == n[3..];
  }

  lemma {:induction false} FromFirst(n: seq<byte>)
    requires n != []
    ensures FromLittleEndian(n) == n[0] + 256 * FromLittleEndian(n[1..])
    ensures |n| == 1 ==> FromLittleEndian(n) == n[0]
  {
  }

  /** The bytes of a header, field by field. */
  lemma {:induction false} HeaderFields(flags: byte, hint: nat, bodyLen: nat, rest: seq<byte>)
    requires hint < 0x1_0000 && bodyLen < TWO_32
    ensures var s := BaseHeader(flags, hint, bodyLen) + rest;
            && |s| == HEADER_SIZE + |rest| && s[..4] == MAGIC && s[4] == FMT_VER_2 && s[5] == flags
            && FromLittleEndian(s[6..8]) == hint && FromLittleEndian(s[8..12]) == bodyLen && s[12..] == rest
  {
    var s := BaseHeader(flags, hint, bodyLen) + rest;
    assert Pow256(2) == 0x1_0000;
    assert Pow256(4) == TWO_32 by {
      assert Pow256(3) == 0x100_0000;
    }
    LittleEndianBack(2, hint, Pow256(2));
    LittleEndianBack(4, bodyLen, Pow256(4));
    assert s[6..8] == LittleEndian(2, hint);
    assert s[8..12] == LittleEndian(4, bodyLen);
  }

  /** The bytes a parsed header stands for. */
  function HeadBytes(h: Head): seq<byte> {
    match h.inflatedLen
    case None => BaseHeader(h.flags, h.hint, h.bodyLen)
    case Some(n) => ExtendedHeader(h.flags, h.hint, h.bodyLen, n)
  }

  /** The five flags bytes there are: an uncompressed body; a body compressed by zstd (1) or gzip (2) behind the base
      header, as older writers left it; the same with the inflated length declared. */
  predicate GoodFlags(flags: byte, compression: nat, extended: bool) {
    if extended then (flags == 9 && compression == 1) || (flags == 10 && compression == 2)
    else flags == compression <= 2
  }

  /** The flags rule: reserved bits, unknown methods and a declared length without compression are refused, the five
      good bytes are not. */
  lemma {:induction false} MethodExactly(flags: byte)
    ensures HeaderMethod(flags).Ok? <==> flags in {0, 1, 2, 9, 10}
    ensures forall c: nat, x :: HeaderMethod(flags) == Ok((c, x)) <==> GoodFlags(flags, c, x)
    ensures HeaderMethod(flags).Err? ==> HeaderMethod(flags) == Err(ReservedFlags)
  {
    if flags < 16 {
      assert flags % 8 == if flags < 8 then flags else flags - 8;
    }
  }

  /** A header whose numbers fit their fields and whose flags say what follows. */
  predicate GoodHead(h: Head) {
    && h.hint < 0x1_0000 && h.bodyLen < TWO_32 && (h.inflatedLen.Some? ==> h.inflatedLen.value < TWO_32)
    && GoodFlags(h.flags, h.compression, h.inflatedLen.Some?)
    && h.size == if h.inflatedLen.Some? then 16 else 12
  }

  /** ReadHeader's checks accept exactly the bytes of a good header with as much body behind them as it declares. */
  lemma {:induction false} HeadExactly(s: seq<byte>, h: Head)
    ensures HeadAt(s) == Ok(h) <==> GoodHead(h) && |s| == h.size + h.bodyLen && s[..h.size] == HeadBytes(h)
  {
    MethodExactly(h.flags);
    if HeadAt(s) == Ok(h) {
      HeadSpelled(s, h);
    }
    if GoodHead(h) && |s| == h.size + h.bodyLen && s[..h.size] == HeadBytes(h) {
      HeadParsed(s, h);
    }
  }

  lemma {:induction false} Widths()
    ensures Pow256(2) == 0x1_0000 && Pow256(4) == TWO_32
  {
    assert Pow256(3) == 0x100_0000;
  }

  lemma {:induction false} HeadSpelled(s: seq<byte>, h: Head)
    requires HeadAt(s) == Ok(h)
    ensures GoodHead(h) && |s| == h.size + h.bodyLen && s[..h.size] == HeadBytes(h)
  {
    MethodExactly(s[5]);
    Widths();
    LittleEndianForth(s[6..8]);
    LittleEndianForth(s[8..12]);
    assert s[..12] == s[..4] + [s[4], s[5]] + s[6..8] + s[8..12];
    if h.inflatedLen.Some? {
      LittleEndianForth(s[12..16]);
      assert s[..16] == s[..12] + s[12..16];
    }
  }

  lemma {:induction false} HeadParsed(s: seq<byte>, h: Head)
    requires GoodHead(h) && |s| == h.size + h.bodyLen && s[..h.size] == HeadBytes(h)
    ensures HeadAt(s) == Ok(h)
  {
    MethodExactly(h.flags);
    var base, tail := BaseHeader(h.flags, h.hint, h.bodyLen), s[12..];
    HeaderLength(h.flags, h.hint, h.bodyLen);
    if h.inflatedLen.Some? {
      var n := h.inflatedLen.value;
      Widths();
      LittleEndianBack(4, n, TWO_32);
      assert s[..16] == base + LittleEndian(4, n);
      assert s[..12] == s[..16][..12] && s[12..16] == s[..16][12..];
    }
    assert s == base + tail;
    HeaderFields(h.flags, h.hint, h.bodyLen, tail);
  }
}
