/** The Reader: a cursor in a buffer with the end of the current region, and a sticky first error. */
module ReaderModel {
  import opened Basics
  import opened Varint
  import opened Ops
  import opened Wire

  function First(err: Option<Error>, e: Error): Option<Error> { if err.Some? then err else Some(e) }

  lemma {:induction false} Window(buf: seq<byte>, pos: nat, end: nat, k: nat, n: nat)
    requires pos + k + n <= end <= |buf|
    ensures buf[pos..end][k..k + n] == buf[pos + k..pos + k + n]
  {
    var a, b := buf[pos..end][k..k + n], buf[pos + k..pos + k + n];
    forall i | 0 <= i < n ensures a[i] == b[i] {
      assert a[i] == buf[pos..end][k + i];
    }
  }

  class Reader {
    var buf: seq<byte>
    var pos: nat
    var end: nat
    var err: Option<Error>

    ghost predicate Valid()
      reads this
    {
      pos <= end <= |buf|
    }

    /** The bytes left in the current region. */
    ghost function Rest(): seq<byte>
      requires Valid()
      reads this
    {
      buf[pos..end]
    }

    constructor (src: seq<byte>)
      ensures Valid() && buf == src && Rest() == src && pos == 0 && err == None
    {
      buf, pos, end, err := src, 0, |src|, None;
    }

    method SetErr(e: Error)
      modifies this`err
      ensures err == First(old(err), e)
    {
      if err.None? {
        err := Some(e);
      }
    }

    predicate HasMore()
      requires Valid()
      reads this
    {
      err.None? && pos < end
    }

    /** The unexported readUvarint; it does not look at err first. */
    method RawUvarint() returns (r: Result<nat>)
      requires Valid()
      modifies this`pos, this`err
      ensures Valid()
      ensures match ReadUvarint(old(Rest()))
              case Ok((v, n)) => r == Ok(v) && pos == old(pos) + n && err == old(err)
              case Err(e) => r == Err(e) && pos == old(pos) && err == First(old(err), e)
    {
      assert buf[..end][pos..] == buf[pos..end];
      var got := ReadUvarintLoop(buf[..end], pos);
      match got {
        case Err(e) =>
          SetErr(e);
          r := Err(e);
        case Ok((v, n)) =>
          pos := pos + n;
          r := Ok(v);
      }
    }

    method ReadTag() returns (r: Result<(nat, nat)>)
      requires Valid()
      modifies this`pos, this`err
      ensures Valid() && pos >= old(pos)
      ensures old(err).Some? ==> r == Err(old(err).value) && pos == old(pos) && err == old(err)
      ensures old(err) == None ==>
                match TagAt(old(Rest()))
                case Ok((t, n)) => r == Ok(t) && pos == old(pos) + n && err == None
                case Err(e) => r == Err(e) && err == Some(e)
    {
      if err.Some? {
        return Err(err.value);
      }
      var v :- RawUvarint();
      var tag, wire := v / 8, v % 8;
      if tag == 0 {
        SetErr(ZeroTag);
        return Err(err.value);
      }
      if tag > MAX_TAG {
        SetErr(TagOverflow);
        return Err(err.value);
      }
      if wire > 3 {
        SetErr(ReservedWire);
        return Err(err.value);
      }
      return Ok((tag, wire));
    }

    /** ReadUvarint and, through unzigzag, ReadVarint and ReadBool. */
    method ReadUvar() returns (r: Result<nat>)
      requires Valid()
      modifies this`pos, this`err
      ensures Valid() && pos >= old(pos)
      ensures old(err).Some? ==> r == Err(old(err).value) && pos == old(pos) && err == old(err)
      ensures old(err) == None ==>
                match ReadUvarint(old(Rest()))
                case Ok((v, n)) => r == Ok(v) && pos == old(pos) + n && err == None
                case Err(e) => r == Err(e) && err == Some(e)
    {
      if err.Some? {
        return Err(err.value);
      }
      r := RawUvarint();
    }

    /** ReadFixed32 and ReadFixed64. */
    method ReadFixed(width: nat) returns (r: Result<nat>)
      requires Valid()
      modifies this`pos, this`err
      ensures Valid() && pos >= old(pos)
      ensures old(err).Some? ==> r == Err(old(err).value) && pos == old(pos) && err == old(err)
      ensures old(err) == None ==>
                match FixedAt(old(Rest()), width)
                case Ok((v, n)) => r == Ok(v) && pos == old(pos) + n && err == None
                case Err(e) => r == Err(e) && err == Some(e)
    {
      if err.Some? {
        return Err(err.value);
      }
      if end - pos < width {
        SetErr(Truncated);
        return Err(err.value);
      }
      assert buf[pos..end][..width] == buf[pos..pos + width];
      r := Ok(FromLittleEndian(buf[pos..pos + width]));
      pos := pos + width;
    }

    /** readLenBytes; it does not look at err first, and a short region answers with the first error. */
    method ReadBytes() returns (r: Result<seq<byte>>)
      requires Valid()
      modifies this`pos, this`err
      ensures Valid() && pos >= old(pos)
      ensures match DelimAt(old(Rest()))
              case Ok((b, n)) => r == Ok(b) && pos == old(pos) + n && err == old(err)
              case Err(e) => r.Err? && err == First(old(err), e) && (old(err) == None ==> r == Err(e))
    {
      var n :- RawUvarint();
      if end - pos < n {
        SetErr(Truncated);
        return Err(err.value);
      }
      Window(buf, old(pos), end, pos - old(pos), n);
      r := Ok(buf[pos..pos + n]);
      pos := pos + n;
    }

    /** ReadLength; like readLenBytes it does not look at err first. */
    method ReadLength() returns (r: Result<nat>)
      requires Valid()
      modifies this`pos, this`err
      ensures Valid() && pos >= old(pos)
      ensures match CountAt(old(Rest()))
              case Ok((n, k)) => r == Ok(n) && pos == old(pos) + k && err == old(err)
              case Err(e) => r.Err? && err == First(old(err), e) && (old(err) == None ==> r == Err(e))
    {
      var n :- RawUvarint();
      if n > end - pos {
        SetErr(Truncated);
        return Err(err.value);
      }
      r := Ok(n);
    }

    method ReadPresenceByte(allowZero: bool) returns (r: Result<PresenceState>)
      requires Valid()
      modifies this`pos, this`err
      ensures Valid() && pos >= old(pos)
      ensures old(err).Some? ==> r == Err(old(err).value) && pos == old(pos) && err == old(err)
      ensures old(err) == None ==>
                match PresenceAt(old(Rest()), allowZero)
                case Ok((p, n)) => r == Ok(p) && pos == old(pos) + n && err == None
                case Err(e) => r == Err(e) && err == Some(e)
    {
      if err.Some? {
        return Err(err.value);
      }
      if end - pos < 1 {
        SetErr(Truncated);
        return Err(err.value);
      }
      var b := buf[pos];
      assert b == Rest()[0];
      pos := pos + 1;
      if b / 4 != 0 {
        SetErr(InvalidPresence);
        return Err(err.value);
      }
      match b {
        case 0 => return Ok(Nil);
        case 1 => return Ok(NonZero);
        case 3 =>
          if allowZero {
            return Ok(Zero);
          }
          SetErr(InvalidPresence);
          return Err(err.value);
        case _ =>
          SetErr(InvalidPresence);
          return Err(err.value);
      }
    }

    /** BeginLengthDelim narrows the region to the body of a length prefix and hands back the end it replaced. */
    method BeginLengthDelim() returns (r: Result<nat>)
      requires Valid()
      modifies this`pos, this`end, this`err
      ensures Valid() && pos >= old(pos)
      ensures match DelimAt(old(Rest()))
              case Ok((body, n)) =>
                && r == Ok(old(end)) && err == old(err)
                && Rest() == body && end == old(pos) + n <= old(end)
              case Err(e) =>
                && r.Err? && err == First(old(err), e) && (old(err) == None ==> r == Err(e))
                && end == old(end)
    {
      ghost var start := pos;
      var n :- RawUvarint();
      if end - pos < n {
        SetErr(Truncated);
        return Err(err.value);
      }
      Window(buf, start, end, pos - start, n);
      r := Ok(end);
      end := pos + n;
    }

    /** EndLengthDelim gives the outer region back, once the inner one has been read to its end. */
    method EndLengthDelim(savedEnd: nat) returns (e: Option<Error>)
      requires Valid() && end <= savedEnd <= |buf|
      modifies this`end, this`err
      ensures Valid()
      ensures old(err).Some? ==> e == old(err) == err && end == old(end)
      ensures old(err) == None && pos < old(end) ==> e == err == Some(TrailingBytes) && end == old(end)
      ensures old(err) == None && pos == old(end) ==> e == err == None && end == savedEnd
    {
      if err.Some? {
        return err;
      }
      if pos != end {
        SetErr(TrailingBytes);
        return err;
      }
      end := savedEnd;
      return None;
    }

    method SkipField(wire: nat) returns (e: Option<Error>)
      requires Valid()
      modifies this`pos, this`err
      ensures Valid() && pos >= old(pos)
      ensures old(err).Some? ==> e == old(err) == err && pos == old(pos)
      ensures old(err) == None ==>
                match SkipAt(old(Rest()), wire)
                case Ok(n) => e == err == None && pos == old(pos) + n
                case Err(x) => e == err == Some(x)
    {
      if err.Some? {
        return err;
      }
      if wire == VARINT {
        var _ := RawUvarint();
        return err;
      } else if wire == FIXED64 || wire == FIXED32 {
        var width := if wire == FIXED64 then 8 else 4;
        if end - pos < width {
          SetErr(Truncated);
          return err;
        }
        pos := pos + width;
        return None;
      } else if wire == LENGTH_DELIM {
        var r := RawUvarint();
        if r.Err? {
          return err;
        }
        if end - pos < r.value {
          SetErr(Truncated);
          return err;
        }
        pos := pos + r.value;
        return None;
      }
      SetErr(ReservedWire);
      return err;
    }
  }
}
