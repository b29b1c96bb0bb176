/** What each Reader call takes from the bytes left in its region, as pure parsers: a value and how many bytes it
    used. */
module Wire {
  import opened Basics
  import opened Varint
  import opened Ops

  const VARINT: nat := 0
  const FIXED64: nat := 1
  const LENGTH_DELIM: nat := 2
  const FIXED32: nat := 3

  function TagAt(s: seq<byte>): (r: Result<((nat, nat), nat)>)
    ensures r.Ok? ==> 1 <= r.value.1 <= |s| && 1 <= r.value.0.0 <= MAX_TAG && r.value.0.1 <= 3
  {
    var (v, n) :- ReadUvarint(s);
    if v / 8 == 0 then Err(ZeroTag)
    else if v / 8 > MAX_TAG then Err(TagOverflow)
    else if v % 8 > 3 then Err(ReservedWire)
    else Ok(((v / 8, v % 8), n))
  }

  /** A length prefix and the bytes it covers: readLenBytes and BeginLengthDelim. */
  function DelimAt(s: seq<byte>): (r: Result<(seq<byte>, nat)>)
    ensures r.Ok? ==> 1 + |r.value.0| <= r.value.1 <= |s|
  {
    var (n, k) :- ReadUvarint(s);
    if |s| - k < n then Err(Truncated) else Ok((s[k..k + n], k + n))
  }

  /** ReadLength: a count that may not exceed the bytes left. */
  function CountAt(s: seq<byte>): (r: Result<(nat, nat)>)
    ensures r.Ok? ==> 1 <= r.value.1 && r.value.0 + r.value.1 <= |s|
  {
    var (n, k) :- ReadUvarint(s);
    if n > |s| - k then Err(Truncated) else Ok((n, k))
  }

  function FromLittleEndian(b: seq<byte>): nat {
    if b == [] then 0 else b[0] + 256 * FromLittleEndian(b[1..])
  }

  function FixedAt(s: seq<byte>, width: nat): (r: Result<(nat, nat)>)
    ensures r.Ok? ==> r.value.1 == width <= |s|
  {
    if |s| < width then Err(Truncated) else Ok((FromLittleEndian(s[..width]), width))
  }

  function PresenceAt(s: seq<byte>, allowZero: bool): (r: Result<(PresenceState, nat)>)
    ensures r.Ok? ==> r.value.1 == 1 <= |s|
  {
    if |s| < 1 then Err(Truncated)
    else if s[0] == 0 then Ok((Nil, 1))
    else if s[0] == 1 then Ok((NonZero, 1))
    else if s[0] == 3 && allowZero then Ok((Zero, 1))
    else Err(InvalidPresence)
  }

  /** SkipField: how far past an unknown field of this wire type. */
  function SkipAt(s: seq<byte>, wire: nat): (r: Result<nat>)
    ensures r.Ok? ==> 1 <= r.value <= |s|
  {
    if wire == VARINT then
      var (_, n) :- ReadUvarint(s);
      Ok(n)
    else if wire == FIXED64 then
      if |s| < 8 then Err(Truncated) else Ok(8)
    else if wire == FIXED32 then
      if |s| < 4 then Err(Truncated) else Ok(4)
    else if wire == LENGTH_DELIM then
      var (_, n) :- DelimAt(s);
      Ok(n)
    else Err(ReservedWire)
  }

  lemma {:induction false} TagBack(tag: nat, wire: nat, rest: seq<byte>)
    requires TagError(tag, wire) == None
    ensures TagAt(Uvarint(tag * 8 + wire) + rest) == Ok(((tag, wire), |Uvarint(tag * 8 + wire)|))
  {
    ReadBack(tag * 8 + wire, rest);
  }

  /** Every varint as a key: tags 1 to 2^29 - 1 under wire types 0 to 3 and nothing else, and which error each of the
      others gets. The writer refuses exactly the same. */
  lemma {:induction false} KeyExactly(v: nat, rest: seq<byte>)
    requires v < TWO_64
    ensures TagAt(Uvarint(v) + rest) ==
            if v < 8 then Err(ZeroTag)
            else if v >= 0x1_0000_0000 then Err(TagOverflow)
            else if v % 8 > 3 then Err(ReservedWire)
            else Ok(((v / 8, v % 8), |Uvarint(v)|))
    ensures v >= 8 ==> (TagError(v / 8, v % 8) == None <==> v < 0x1_0000_0000 && v % 8 <= 3)
  {
    ReadBack(v, rest);
  }

  lemma {:induction false} DelimBack(body: seq<byte>, rest: seq<byte>)
    requires |body| < TWO_64
    ensures DelimAt(Delim(body) + rest) == Ok((body, |Delim(body)|))
  {
    var p := Uvarint(|body|);
    AppendAssoc(p, body, rest);
    ReadBack(|body|, body + rest);
    var s := Delim(body) + rest;
    assert s == p + (body + rest);
    assert s[|p|..|p| + |body|] == body;
  }

  lemma {:induction false} CountBack(n: nat, rest: seq<byte>)
    requires n <= |rest| && n < TWO_64
    ensures CountAt(Uvarint(n) + rest) == Ok((n, |Uvarint(n)|))
  {
    ReadBack(n, rest);
  }

  lemma {:induction false} LittleEndianBack(width: nat, bits: nat, limit: nat)
    requires bits < limit && limit == Pow256(width)
    ensures |LittleEndian(width, bits)| == width
    ensures FromLittleEndian(LittleEndian(width, bits)) == bits
    decreases width
  {
    if width > 0 {
      LittleEndianBack(width - 1, bits / 256, Pow256(width - 1));
      assert LittleEndian(width, bits)[1..] == LittleEndian(width - 1, bits / 256);
    }
  }

  lemma {:induction false} LittleEndianForth(b: seq<byte>)
    ensures FromLittleEndian(b) < Pow256(|b|) && LittleEndian(|b|, FromLittleEndian(b)) == b
    decreases |b|
  {
    if b != [] {
      var low, high := b[0], FromLittleEndian(b[1..]);
      LittleEndianForth(b[1..]);
      assert (low + 256 * high) % 256 == low && (low + 256 * high) / 256 == high;
      assert b == [low] + b[1..];
    }
  }

  function Pow256(k: nat): nat { if k == 0 then 1 else 256 * Pow256(k - 1) }

  lemma {:induction false} FixedBack(width: nat, bits: nat, rest: seq<byte>)
    requires bits < Pow256(width)
    ensures FixedAt(LittleEndian(width, bits) + rest, width) == Ok((bits, width))
  {
    LittleEndianBack(width, bits, Pow256(width));
    assert (LittleEndian(width, bits) + rest)[..width] == LittleEndian(width, bits);
  }
}
