/** LEB128 varints (DWARF 5, section 7.6) and zigzag: the arithmetic under every tag, length and integer. */
module Varint {
  import opened Basics

  /** Bytes needed for v, by the source's table of thresholds. On 64-bit values the last line is 10; it goes on
      counting for byte counts that no Go int could hold, so that sizes need no overflow case. */
  function VarintLen(v: nat): nat {
    if v < 0x80 then 1
    else if v < 0x4000 then 2
    else if v < 0x20_0000 then 3
    else if v < 0x1000_0000 then 4
    else if v < 0x8_0000_0000 then 5
    else if v < 0x400_0000_0000 then 6
    else if v < 0x2_0000_0000_0000 then 7
    else if v < 0x100_0000_0000_0000 then 8
    else if v < 0x8000_0000_0000_0000 then 9
    else 9 + VarintLen(v / 0x8000_0000_0000_0000)
  }

  /** The canonical encoding: low seven bits first, high bit set on all bytes but the last. */
  function Uvarint(v: nat): (s: seq<byte>)
    ensures |s| >= 1
    decreases v
  {
    if v < 128 then [v] else [v % 128 + 128] + Uvarint(v / 128)
  }

  /** The number a byte string spells: sum of (b[k] mod 128) * 128^k. */
  function Spelled(b: seq<byte>): nat {
    if b == [] then 0 else b[0] % 128 + 128 * Spelled(b[1..])
  }

  /** One complete varint: every byte but the last carries the continuation bit. */
  predicate OneVarint(b: seq<byte>) {
    && b != []
    && b[|b| - 1] < 128
    && forall k :: 0 <= k < |b| - 1 ==> b[k] >= 128
  }

  lemma {:induction false} LengthStep(v: nat)
    requires v >= 128
    ensures VarintLen(v) == 1 + VarintLen(v / 128)
    decreases v
  {
    var q := v / 0x8000_0000_0000_0000;
    if q >= 128 {
      LengthStep(q);
      assert (v / 128) / 0x8000_0000_0000_0000 == q / 128;
    }
  }

  lemma {:induction false} UvarintLength(v: nat)
    ensures |Uvarint(v)| == VarintLen(v)
    ensures v < TWO_64 ==> VarintLen(v) <= 10
    decreases v
  {
    if v >= 128 {
      LengthStep(v);
      UvarintLength(v / 128);
    }
  }

  /** A continuation byte in front of a varint makes a varint with one more base-128 digit. */
  lemma {:induction false} ConsVarint(c: byte, t: seq<byte>)
    requires c >= 128 && OneVarint(t)
    ensures OneVarint([c] + t) && Spelled([c] + t) == c - 128 + 128 * Spelled(t)
  {
    var b := [c] + t;
    assert b[1..] == t;
    assert forall k :: 1 <= k < |b| ==> b[k] == t[k - 1];
  }

  lemma {:induction false} UvarintSpells(v: nat)
    ensures OneVarint(Uvarint(v)) && Spelled(Uvarint(v)) == v
    decreases v
  {
    if v < 128 {
      assert Uvarint(v)[1..] == [];
    } else {
      UvarintSpells(v / 128);
      ConsVarint(v % 128 + 128, Uvarint(v / 128));
    }
  }

  /** Decoding from index i of s: the value spelled by the bytes from i on, and the index after it. */
  function Scan(s: seq<byte>, i: nat): (r: Result<(nat, nat)>)
    requires i <= 9
    ensures r.Ok? ==> i < r.value.1 <= |s| && r.value.1 <= 10
    decreases 10 - i
  {
    if i >= |s| then Err(Truncated)
    else if i == 9 && s[i] > 1 then Err(VarintOverflow)
    else if s[i] < 128 then Ok((s[i], i + 1))
    else match Scan(s, i + 1)
      case Err(e) => Err(e)
      case Ok((v, n)) => Ok((s[i] - 128 + 128 * v, n))
  }

  /** readUvarint on the bytes that remain: the value and how many bytes it took. */
  function ReadUvarint(s: seq<byte>): (r: Result<(nat, nat)>)
    ensures r.Ok? ==> 1 <= r.value.1 <= |s| && r.value.1 <= 10
  {
    Scan(s, 0)
  }

  lemma {:induction false} ScanSpells(s: seq<byte>, i: nat)
    requires i <= 9 && Scan(s, i).Ok?
    ensures var (v, n) := Scan(s, i).value; OneVarint(s[i..n]) && Spelled(s[i..n]) == v
    decreases 10 - i
  {
    var n := Scan(s, i).value.1;
    if s[i] < 128 {
      assert s[i..n] == [s[i]];
    } else {
      ScanSpells(s, i + 1);
      assert s[i..n] == [s[i]] + s[i + 1..n];
      ConsVarint(s[i], s[i + 1..n]);
    }
  }

  lemma {:induction false} ScanRefuses(s: seq<byte>, i: nat)
    requires i <= 9 && Scan(s, i).Err?
    ensures (Scan(s, i).error == Truncated && |s| <= 9 && forall k :: i <= k < |s| ==> s[k] >= 128)
            || (Scan(s, i).error == VarintOverflow && |s| > 9 && s[9] > 1 && forall k :: i <= k < 9 ==> s[k] >= 128)
    decreases 10 - i
  {
    if i < |s| && !(i == 9 && s[i] > 1) {
      ScanRefuses(s, i + 1);
    }
  }

  /** 128^k, kept as a function so that no nonlinear term escapes. */
  function Pow128(k: nat): nat { if k == 0 then 1 else 128 * Pow128(k - 1) }

  lemma {:induction false} SpelledBound(b: seq<byte>)
    requires OneVarint(b) && |b| <= 10
    ensures Spelled(b) < Pow128(|b|)
  {
    if |b| == 1 {
      assert b[1..] == [];
    } else {
      assert OneVarint(b[1..]);
      SpelledBound(b[1..]);
    }
  }

  /** With i bytes to go before the tenth, a varint of full length is below 128^(9-i) * 2 iff its last byte is at most
      1. */
  lemma {:induction false} LastByteDecides(b: seq<byte>)
    requires OneVarint(b)
    ensures Spelled(b) < 2 * Pow128(|b| - 1) <==> b[|b| - 1] <= 1
  {
    if |b| == 1 {
      assert b[1..] == [];
    } else {
      assert OneVarint(b[1..]);
      LastByteDecides(b[1..]);
    }
  }

  lemma {:induction false} Powers()
    ensures 2 * Pow128(9) == TWO_64
    ensures forall k: nat :: k <= 9 ==> Pow128(k) <= Pow128(9)
  {
    assert Pow128(5) == 0x8_0000_0000;
    assert Pow128(9) == 0x8000_0000_0000_0000;
    assert Pow128(1) == 128 && Pow128(2) == 0x4000 && Pow128(3) == 0x20_0000 && Pow128(4) == 0x1000_0000;
    assert Pow128(6) == 0x400_0000_0000 && Pow128(7) == 0x2_0000_0000_0000 && Pow128(8) == 0x100_0000_0000_0000;
  }

  lemma {:induction false} InnerContinues(s: seq<byte>, m: nat, n: nat)
    requires 1 <= m < n <= |s| && OneVarint(s[..n])
    ensures s[m - 1] >= 128
  {
    assert s[..n][m - 1] == s[m - 1];
  }

  /** A string has at most one varint prefix. */
  lemma {:induction false} OnePrefix(s: seq<byte>, m: nat, n: nat)
    requires m <= |s| && n <= |s| && OneVarint(s[..m]) && OneVarint(s[..n])
    ensures m == n
  {
    assert s[..m][m - 1] == s[m - 1] && s[..n][n - 1] == s[n - 1];
    if m < n {
      InnerContinues(s, m, n);
    } else if n < m {
      InnerContinues(s, n, m);
    }
  }

  lemma {:induction false} RefusedNotVarint(s: seq<byte>, n: nat)
    requires ReadUvarint(s).Err? && 1 <= n <= |s| && n <= 10 && OneVarint(s[..n])
    ensures Spelled(s[..n]) >= TWO_64
  {
    ScanRefuses(s, 0);
    assert s[..n][n - 1] == s[n - 1];
    LastByteDecides(s[..n]);
    Powers();
  }

  /** Acceptance is exact: readUvarint takes n bytes and yields v precisely when those bytes form one varint of at
      most ten bytes whose exact sum is v and v fits 64 bits. Nothing wraps; everything from 2^64 up is refused. */
  lemma {:induction false} AcceptsExactly(s: seq<byte>, v: nat, n: nat)
    ensures ReadUvarint(s) == Ok((v, n)) <==>
            1 <= n <= |s| && n <= 10 && OneVarint(s[..n]) && Spelled(s[..n]) == v && v < TWO_64
  {
    if ReadUvarint(s).Ok? {
      var (w, m) := ReadUvarint(s).value;
      ScanSpells(s, 0);
      assert s[0..m] == s[..m];
      AcceptedFits(s);
      if 1 <= n <= |s| && OneVarint(s[..n]) {
        OnePrefix(s, m, n);
      }
    } else if 1 <= n <= |s| && n <= 10 && OneVarint(s[..n]) {
      RefusedNotVarint(s, n);
    }
  }

  lemma {:induction false} AcceptedFits(s: seq<byte>)
    requires ReadUvarint(s).Ok?
    ensures ReadUvarint(s).value.0 < TWO_64
  {
    Powers();
    var m := ReadUvarint(s).value.1;
    ScanSpells(s, 0);
    assert s[0..m] == s[..m];
    SpelledBound(s[..m]);
    if m == 10 {
      TenthByte(s, 0);
      LastByteDecides(s[..m]);
    }
  }

  lemma {:induction false} TenthByte(s: seq<byte>, i: nat)
    requires i <= 9 && Scan(s, i).Ok? && Scan(s, i).value.1 == 10
    ensures |s| >= 10 && s[9] <= 1
    decreases 10 - i
  {
    if i < 9 {
      TenthByte(s, i + 1);
    }
  }

  /** Reading back: an encoded 64-bit value followed by anything yields that value and its varintLen bytes. */
  lemma {:induction false} ReadBack(v: nat, suffix: seq<byte>)
    requires v < TWO_64
    ensures ReadUvarint(Uvarint(v) + suffix) == Ok((v, |Uvarint(v)|))
  {
    var s := Uvarint(v) + suffix;
    UvarintLength(v);
    UvarintSpells(v);
    assert s[..|Uvarint(v)|] == Uvarint(v);
    AcceptsExactly(s, v, |Uvarint(v)|);
  }

  /** appendUvarint. */
  method AppendUvarint(b: seq<byte>, v: nat) returns (out: seq<byte>)
    ensures out == b + Uvarint(v)
  {
    var x := v;
    out := b;
    while x >= 0x80
      invariant out + Uvarint(x) == b + Uvarint(v)
      decreases x
    {
      ghost var before := out;
      out := out + [x % 128 + 128];
      assert Uvarint(x) == [x % 128 + 128] + Uvarint(x / 128);
      assert out + Uvarint(x / 128) == before + Uvarint(x);
      x := x / 128;
    }
    out := out + [x];
  }

  lemma {:induction false} UvarintMore(x: nat)
    requires x >= 128
    ensures Uvarint(x) == [x % 128 + 128] + Uvarint(x / 128)
  {
  }

  lemma {:induction false} UvarintLast(x: nat)
    requires x < 128
    ensures Uvarint(x) == [x]
  {
  }

  lemma {:induction false} PatchNext(p: seq<byte>, d: seq<byte>, r: seq<byte>, c: byte)
    requires r != []
    ensures (p + d + r)[|p| + |d| := c] == p + (d + [c]) + r[1..]
  {
  }

  /** putUvarint into the slot of b that starts at index at; the slot must be large enough. */
  method PutUvarint(b: seq<byte>, at: nat, v: nat) returns (out: seq<byte>, n: nat)
    requires at + |Uvarint(v)| <= |b|
    ensures n == |Uvarint(v)|
    ensures out == b[..at] + Uvarint(v) + b[at + n..]
  {
    hide Uvarint;
    ghost var done: seq<byte> := [];
    var x, i := v, 0;
    out := b;
    assert b == b[..at] + done + b[at..];
    while x >= 0x80
      invariant |done| == i && done + Uvarint(x) == Uvarint(v)
      invariant at + i + |Uvarint(x)| <= |b|
      invariant out == b[..at] + done + b[at + i..]
      decreases x
    {
      var c: byte := x % 128 + 128;
      UvarintMore(x);
      AppendAssoc(done, [c], Uvarint(x / 128));
      PatchNext(b[..at], done, b[at + i..], c);
      out := out[at + i := c];
      done := done + [c];
      x := x / 128;
      i := i + 1;
    }
    UvarintLast(x);
    PatchNext(b[..at], done, b[at + i..], x);
    out := out[at + i := x];
    n := i + 1;
  }

  /** readUvarint as the loop it is: a shift accumulator cut to 64 bits at every step. */
  method ReadUvarintLoop(b: seq<byte>, pos: nat) returns (r: Result<(nat, nat)>)
    requires pos <= |b|
    ensures r == ReadUvarint(b[pos..])
  {
    ghost var s := b[pos..];
    var v: nat, scale: nat, i := 0, 1, 0;
    while i < 10
      invariant i <= 9
      invariant scale == Pow128(i) && v < scale
      invariant ReadUvarint(s) == Shifted(Scan(s, i), v, scale)
      decreases 10 - i
    {
      if pos + i >= |b| {
        return Err(Truncated);
      }
      var c := b[pos + i];
      assert s[i] == c;
      if i == 9 && c > 1 {
        return Err(VarintOverflow);
      }
      NoWrap(i, c, v);
      ShiftStep(s, i, v, scale);
      v := Accumulate(v, c, scale);
      if c < 0x80 {
        return Ok((v, i + 1));
      }
      scale := scale * 128;
      i := i + 1;
    }
    assert false;
  }

  /** v |= uint64(c & 0x7f) << shift, with scale == 2^shift: the bits are disjoint, so the or is a sum; the shift
      drops whatever leaves the 64-bit word. */
  function Accumulate(v: nat, c: byte, scale: nat): nat { (v + (c % 128) * scale) % TWO_64 }

  ghost function Shifted(r: Result<(nat, nat)>, v: nat, scale: nat): Result<(nat, nat)> {
    match r
    case Err(e) => Err(e)
    case Ok((w, n)) => Ok((v + scale * w, n))
  }

  lemma {:induction false} ShiftStep(s: seq<byte>, i: nat, v: nat, scale: nat)
    requires i <= 9 && i < |s| && !(i == 9 && s[i] > 1)
    requires v + (s[i] % 128) * scale < TWO_64
    ensures s[i] < 128 ==> Shifted(Scan(s, i), v, scale) == Ok((Accumulate(v, s[i], scale), i + 1))
    ensures s[i] >= 128 ==>
              Shifted(Scan(s, i), v, scale) == Shifted(Scan(s, i + 1), Accumulate(v, s[i], scale), scale * 128)
  {
    var c := s[i] % 128;
    Small(v + c * scale);
    var next := Accumulate(v, s[i], scale);
    assert next == v + c * scale;
    if s[i] < 128 {
      assert scale * c == c * scale;
    } else if Scan(s, i + 1).Ok? {
      var (w, n) := Scan(s, i + 1).value;
      Distribute(v, c, scale, w);
      assert Scan(s, i) == Ok((c + 128 * w, n));
    }
  }

  lemma {:induction false} Small(x: nat)
    requires x < TWO_64
    ensures x % TWO_64 == x
  {
  }

  lemma {:induction false} Distribute(v: nat, c: nat, scale: nat, w: nat)
    ensures v + scale * (c + 128 * w) == v + c * scale + scale * 128 * w
  {
    assert scale * (c + 128 * w) == scale * c + scale * (128 * w);
    assert scale * (128 * w) == scale * 128 * w;
  }

  lemma {:induction false} NoWrap(i: nat, c: byte, v: nat)
    requires i <= 9 && v < Pow128(i) && (i == 9 ==> c <= 1)
    ensures v + (c % 128) * Pow128(i) < TWO_64
    ensures Accumulate(v, c, Pow128(i)) < Pow128(i) * 128 == Pow128(i + 1)
  {
    Powers();
    var d := c % 128;
    assert d * Pow128(i) <= 127 * Pow128(i);
    if i < 9 {
      assert Pow128(i + 1) <= Pow128(9);
    } else {
      assert d <= 1;
    }
  }

  /** zigzagEncode64 by value: the two's complement bit expression is 2v for v >= 0 and -2v-1 below. */
  function Zigzag(v: int): nat { if v >= 0 then 2 * v else -2 * v - 1 }

  function Unzigzag(u: nat): int { if u % 2 == 0 then u / 2 else -(u / 2) - 1 }

  /** zigzag is a bijection between the signed and the unsigned 64-bit integers. */
  lemma {:induction false} ZigzagBijective(v: int, u: nat)
    ensures Unzigzag(Zigzag(v)) == v && Zigzag(Unzigzag(u)) == u
    ensures -TWO_63 <= v < TWO_63 <==> Zigzag(v) < TWO_64
    ensures -TWO_63 <= Unzigzag(u) < TWO_63 <==> u < TWO_64
  {
  }

  /** The bit expressions themselves, on 64-bit words: with the wrapping arithmetic of those words they are the same two
      cases. */
  function ZigzagBits(v: bv64): bv64 {
    (v << 1) ^ (if v >> 63 == 1 then 0xFFFF_FFFF_FFFF_FFFF else 0)
  }

  function UnzigzagBits(u: bv64): bv64 { (u >> 1) ^ (0 - (u & 1)) }

  lemma {:induction false} EncodeBits(v: bv64)
    ensures v >> 63 == 0 ==> ZigzagBits(v) == v + v
    ensures v >> 63 == 1 ==> ZigzagBits(v) == 0 - (v + v) - 1
  {
  }

  lemma {:induction false} DecodeBits(u: bv64)
    ensures u & 1 == 0 ==> UnzigzagBits(u) == u >> 1
    ensures u & 1 == 1 ==> UnzigzagBits(u) == 0xFFFF_FFFF_FFFF_FFFF - (u >> 1)
  {
  }
}
