/** The Writer: one set of write calls over a counting, a recording, a buffered and a streaming mode. */
module WriterModel {
  import opened Basics
  import opened Varint
  import opened Ops
  import opened Header

  const RESERVED_LEN: nat := 5

  /** One callsite's answers; the string and the bytes lane have their own cursors. */
  datatype ScratchEntry = ScratchEntry(values: seq<blob>, strings: seq<blob>, stringsIdx: nat, valuesIdx: nat)

  const EMPTY_ENTRY := ScratchEntry([], [], 0, 0)

  /** What is fixed at construction. streaming stands for a non-nil streamTarget; failAt is the number of the target
      write that returns an error, negative when none does. */
  datatype Config = Config(sizeOnly: bool, recordRegions: bool, streaming: bool, streamSizes: seq<nat>,
                           threshold: int, failAt: int)

  /** A writer's whole state as a value. tape is every generator answer so far and played how many of them this pass
      has used; calls counts generator runs. */
  datatype Snap = Snap(buf: seq<byte>, err: Option<Error>, sizeAcc: nat, recorded: seq<nat>, stack: seq<nat>,
                       target: seq<seq<byte>>, idx: nat, scratch: map<nat, ScratchEntry>, calls: nat,
                       tape: seq<Occ>, played: nat)

  function Entry(scratch: map<nat, ScratchEntry>, site: nat): ScratchEntry {
    if site in scratch then scratch[site] else EMPTY_ENTRY
  }

  function Answers(e: ScratchEntry, lane: Lane): seq<blob> { if lane == Strings then e.strings else e.values }

  function Cursor(e: ScratchEntry, lane: Lane): nat { if lane == Strings then e.stringsIdx else e.valuesIdx }

  ghost predicate Mirrored(scratch: map<nat, ScratchEntry>, tape: seq<Occ>, played: nat, site: nat, lane: Lane)
    requires played <= |tape|
  {
    && Answers(Entry(scratch, site), lane) == Column(tape, site, lane)
    && Cursor(Entry(scratch, site), lane) == |Column(tape[..played], site, lane)|
  }

  /** The scratch map is exactly the tape, sorted by callsite and lane, and its cursors are where the tape stands. */
  ghost predicate Mirrors(scratch: map<nat, ScratchEntry>, tape: seq<Occ>, played: nat)
    requires played <= |tape|
  {
    forall site: nat, lane :: Mirrored(scratch, tape, played, site, lane)
  }

  function Joined(chunks: seq<seq<byte>>): seq<byte> {
    if |chunks| == 0 then [] else Joined(chunks[..|chunks| - 1]) + chunks[|chunks| - 1]
  }

  ghost predicate ValidSnap(cfg: Config, s: Snap) {
    && (cfg.sizeOnly ==> !cfg.streaming)
    && s.played <= |s.tape|
    && Mirrors(s.scratch, s.tape, s.played)
    && (forall k :: 0 <= k < |s.stack| ==> s.stack[k] < |s.recorded|)
    && s.idx <= |cfg.streamSizes|
  }

  /** One successful step from a to b: data described, regions of the given sizes opened and closed, and the
      generator answers occs used up. New answers are asked for only past the end of the tape. */
  ghost predicate Advance(cfg: Config, a: Snap, b: Snap, data: seq<byte>, sizes: seq<nat>, occs: seq<Occ>) {
    && a.err == None && b.err == None
    && b.stack == a.stack
    && AdvanceBytes(cfg, a, b, data)
    && b.recorded == (if cfg.sizeOnly && cfg.recordRegions then a.recorded + sizes else a.recorded)
    && b.idx == (if cfg.streaming then a.idx + |sizes| else a.idx)
    && AdvanceTape(a, b, occs)
  }

  ghost predicate AdvanceBytes(cfg: Config, a: Snap, b: Snap, data: seq<byte>) {
    if cfg.sizeOnly then
      b.sizeAcc == a.sizeAcc + |data| && b.buf == a.buf && b.target == a.target
    else if cfg.streaming then
      b.sizeAcc == a.sizeAcc && Joined(b.target) + b.buf == Joined(a.target) + a.buf + data
    else
      b.sizeAcc == a.sizeAcc && b.buf == a.buf + data && b.target == a.target
  }

  ghost predicate AdvanceTape(a: Snap, b: Snap, occs: seq<Occ>) {
    && a.tape <= b.tape
    && b.played == a.played + |occs| <= |b.tape|
    && b.tape[a.played..b.played] == occs
    && (|b.tape| == |a.tape| || |b.tape| == b.played)
    && b.calls == a.calls + (|b.tape| - |a.tape|)
  }

  /** A target write failed: possible only when streaming to a target that fails. */
  ghost predicate TargetGone(cfg: Config, b: Snap) {
    cfg.streaming && cfg.failAt >= 0 && b.err == Some(TargetFailed)
  }

  /** The contract of a call that writes data: nothing once an error is set, else all of it or a target failure. */
  ghost predicate Writes(cfg: Config, a: Snap, b: Snap, data: seq<byte>) {
    if a.err.Some? then b == a
    else SameTape(a, b) && ((b.err == None && AdvanceBytes(cfg, a, b, data)) || TargetGone(cfg, b))
  }

  ghost predicate SameTape(a: Snap, b: Snap) {
    b.scratch == a.scratch && b.tape == a.tape && b.played == a.played && b.calls == a.calls
    && b.stack == a.stack && b.recorded == a.recorded && b.idx == a.idx
  }

  /** A stream whose pieces are to stay near a threshold. */
  ghost predicate Metered(cfg: Config) {
    cfg.streaming && cfg.threshold > 0 && forall i :: 0 <= i < |cfg.streamSizes| ==> cfg.streamSizes[i] < TWO_64
  }

  /** Every piece handed to the target is within the threshold and one more small write. */
  ghost predicate NearThreshold(cfg: Config, target: seq<seq<byte>>) {
    forall i :: 0 <= i < |target| ==> |target[i]| <= cfg.threshold + 10
  }

  /** And what is held back is within the threshold: with room left, or just full after a presence byte. */
  ghost predicate Tight(cfg: Config, s: Snap) {
    Metered(cfg) ==> NearThreshold(cfg, s.target) && (s.err == None ==> |s.buf| < cfg.threshold)
  }

  ghost predicate Loose(cfg: Config, s: Snap) {
    Metered(cfg) ==> NearThreshold(cfg, s.target) && (s.err == None ==> |s.buf| <= cfg.threshold)
  }

  /** About to be flushed. */
  ghost predicate Brimming(cfg: Config, s: Snap) {
    Metered(cfg) ==> NearThreshold(cfg, s.target) && (s.err == None ==> |s.buf| <= cfg.threshold + 10)
  }

  lemma {:induction false} WritesThen(cfg: Config, a: Snap, b: Snap, c: Snap, d1: seq<byte>, d2: seq<byte>)
    requires Writes(cfg, a, b, d1) && Writes(cfg, b, c, d2)
    ensures Writes(cfg, a, c, d1 + d2)
  {
    assert a.buf + d1 + d2 == a.buf + (d1 + d2);
    assert Joined(a.target) + a.buf + d1 + d2 == Joined(a.target) + a.buf + (d1 + d2);
  }

  /** A stream whose target is gone may have been meant to get anything. */
  lemma {:induction false} StaysGone(cfg: Config, a: Snap, b: Snap, d1: seq<byte>, d2: seq<byte>)
    requires Writes(cfg, a, b, d1) && a.err == None && b.err.Some?
    ensures Writes(cfg, a, b, d2)
  {
  }

  lemma {:induction false} Appended(cfg: Config, a: Snap, data: seq<byte>)
    requires cfg.streaming && !cfg.sizeOnly && a.err == None
    ensures Writes(cfg, a, a.(buf := a.buf + data), data)
  {
    assert Joined(a.target) + (a.buf + data) == Joined(a.target) + a.buf + data;
  }

  lemma {:induction false} Stay(cfg: Config, a: Snap)
    requires a.err == None
    ensures Writes(cfg, a, a, [])
  {
    assert a.buf + [] == a.buf;
    assert Joined(a.target) + a.buf + [] == Joined(a.target) + a.buf;
  }

  lemma {:induction false} WritesAdvance(cfg: Config, a: Snap, b: Snap, data: seq<byte>)
    requires Writes(cfg, a, b, data) && a.err == None && b.err == None && a.played <= |a.tape|
    ensures Advance(cfg, a, b, data, [], [])
  {
    assert a.recorded + [] == a.recorded;
  }

  lemma {:induction false} BytesThen(cfg: Config, a: Snap, b: Snap, c: Snap, d1: seq<byte>, d2: seq<byte>)
    requires AdvanceBytes(cfg, a, b, d1) && AdvanceBytes(cfg, b, c, d2)
    ensures AdvanceBytes(cfg, a, c, d1 + d2)
  {
    assert a.buf + d1 + d2 == a.buf + (d1 + d2);
    assert Joined(a.target) + a.buf + d1 + d2 == Joined(a.target) + a.buf + (d1 + d2);
  }

  lemma {:induction false} TapeThen(a: Snap, b: Snap, c: Snap, o1: seq<Occ>, o2: seq<Occ>)
    requires AdvanceTape(a, b, o1) && AdvanceTape(b, c, o2)
    ensures AdvanceTape(a, c, o1 + o2)
  {
    assert c.tape[a.played..b.played] == b.tape[a.played..b.played];
    assert c.tape[a.played..c.played] == c.tape[a.played..b.played] + c.tape[b.played..c.played];
  }

  lemma {:induction false} AdvanceThen(cfg: Config, a: Snap, b: Snap, c: Snap, d1: seq<byte>, d2: seq<byte>,
                                       z1: seq<nat>, z2: seq<nat>,
                    o1: seq<Occ>, o2: seq<Occ>)
    requires Advance(cfg, a, b, d1, z1, o1) && Advance(cfg, b, c, d2, z2, o2)
    ensures Advance(cfg, a, c, d1 + d2, z1 + z2, o1 + o2)
  {
    hide AdvanceBytes, AdvanceTape;
    BytesThen(cfg, a, b, c, d1, d2);
    TapeThen(a, b, c, o1, o2);
    assert a.recorded + z1 + z2 == a.recorded + (z1 + z2);
  }

  class Writer {
    const cfg: Config
    var buf: seq<byte>
    var err: Option<Error>
    var sizeAcc: nat
    var scratch: map<nat, ScratchEntry>
    var recordedRegions: seq<nat>
    var regionStack: seq<nat>
    var target: seq<seq<byte>>
    var streamSizeIdx: nat
    var calls: nat
    ghost var tape: seq<Occ>
    ghost var played: nat

    ghost function S(): Snap
      reads this
    {
      Snap(buf, err, sizeAcc, recordedRegions, regionStack, target, streamSizeIdx, scratch, calls, tape, played)
    }

    ghost predicate Valid()
      reads this
    {
      ValidSnap(cfg, S())
    }

    /** NewWriter, NewCountingWriter, newRecordingSizeWriter and newStreamingWriter by their configuration. clock is
        the number of generator calls made before this writer. */
    constructor (cfg: Config, clock: nat)
      requires cfg.sizeOnly ==> !cfg.streaming
      ensures Valid() && this.cfg == cfg
      ensures S() == Snap([], None, 0, [], [], [], 0, map[], clock, [], 0)
    {
      this.cfg := cfg;
      buf, err, sizeAcc, scratch := [], None, 0, map[];
      recordedRegions, regionStack, target, streamSizeIdx := [], [], [], 0;
      calls, tape, played := clock, [], 0;
    }

    method SetErr(e: Error)
      modifies this`err
      ensures err == if old(err).Some? then old(err) else Some(e)
    {
      if err.None? {
        err := Some(e);
      }
    }

    /** Hands buf to the target; the body of every flush. */
    method Drain()
      requires Valid() && cfg.streaming && err == None
      modifies this`buf, this`target, this`err
      ensures Writes(cfg, old(S()), S(), [])
      ensures err == None ==> buf == [] && target == old(target) + [old(buf)]
      ensures Brimming(cfg, old(S())) ==> Tight(cfg, S())
    {
      if |target| == cfg.failAt {
        SetErr(TargetFailed);
        return;
      }
      Stay(cfg, S());
      target := target + [buf];
      assert target[..|target| - 1] == old(target);
      buf := [];
    }

    /** flushAll: hands over what is left; nothing to do for a writer with an error, without a target or with an empty
        buffer. */
    method Flush()
      requires Valid()
      modifies this`buf, this`target, this`err
      ensures Writes(cfg, old(S()), S(), [])
      ensures old(err).Some? || !cfg.streaming || old(buf) == [] ==> S() == old(S())
      ensures old(err) == None && err == None && cfg.streaming && old(buf) != [] ==>
              buf == [] && target == old(target) + [old(buf)]
    {
      if err.Some? {
        return;
      }
      if !cfg.streaming || |buf| == 0 {
        Stay(cfg, S());
        return;
      }
      Drain();
    }

    /** afterWrite: a streaming writer flushes once buf has reached its threshold. */
    method AfterWrite()
      requires Valid()
      modifies this`buf, this`target, this`err
      ensures Writes(cfg, old(S()), S(), [])
      ensures old(err) == None && err == None && cfg.streaming && cfg.threshold > 0 ==> |buf| < cfg.threshold
      ensures !cfg.streaming || |old(buf)| < cfg.threshold ==> S() == old(S())
      ensures Brimming(cfg, old(S())) ==> Tight(cfg, S())
    {
      if err.Some? {
        return;
      }
      if !cfg.streaming || |buf| < cfg.threshold {
        Stay(cfg, S());
        return;
      }
      Drain();
    }

    /** The common tail of every small write: append, then afterWrite. */
    method Append(data: seq<byte>)
      requires Valid() && err == None && !cfg.sizeOnly
      modifies this`buf, this`target, this`err
      ensures Writes(cfg, old(S()), S(), data)
      ensures Loose(cfg, old(S())) && |data| <= 10 ==> Tight(cfg, S())
    {
      buf := buf + data;
      ghost var mid := S();
      assert Joined(target) + buf == Joined(target) + old(buf) + data;
      AfterWrite();
      WritesThen(cfg, old(S()), mid, S(), data, []);
      assert data + [] == data;
    }

    /** WriteHeader: the base header with its fields filled in; no afterWrite. */
    method WriteHeader(flags: byte, hint: nat, bodyLen: nat)
      requires Valid()
      modifies this
      ensures Valid() && Writes(cfg, old(S()), S(), BaseHeader(flags, hint, bodyLen))
    {
      if err.Some? {
        return;
      }
      HeaderLength(flags, hint, bodyLen);
      if cfg.sizeOnly {
        sizeAcc := sizeAcc + HEADER_SIZE;
        return;
      }
      buf := buf + BaseHeader(flags, hint, bodyLen);
      assert Joined(target) + buf == Joined(target) + old(buf) + BaseHeader(flags, hint, bodyLen);
    }

    method WriteTag(tag: nat, wire: nat)
      requires Valid()
      modifies this
      ensures Valid()
      ensures TagError(tag, wire) == None ==> Writes(cfg, old(S()), S(), Uvarint(tag * 8 + wire))
      ensures TagError(tag, wire).Some? ==>
                S() == if old(err).Some? then old(S()) else old(S()).(err := TagError(tag, wire))
      ensures Loose(cfg, old(S())) ==> Tight(cfg, S())
    {
      if err.Some? {
        return;
      }
      if tag == 0 {
        SetErr(ZeroTag);
        return;
      }
      if tag > MAX_TAG {
        SetErr(TagOverflow);
        return;
      }
      if wire > 3 {
        SetErr(ReservedWire);
        return;
      }
      WriteUvarint(tag * 8 + wire);
    }

    /** WriteUvarint, and WriteLength for a length that is known. */
    method WriteUvarint(v: uint64)
      requires Valid()
      modifies this
      ensures Valid() && Writes(cfg, old(S()), S(), Uvarint(v))
      ensures Loose(cfg, old(S())) ==> Tight(cfg, S())
    {
      if err.Some? {
        return;
      }
      UvarintLength(v);
      if cfg.sizeOnly {
        sizeAcc := sizeAcc + VarintLen(v);
        return;
      }
      var data := AppendUvarint([], v);
      Append(data);
    }

    method WriteVarint(i: int64)
      requires Valid()
      modifies this
      ensures Valid() && Writes(cfg, old(S()), S(), Uvarint(Zigzag(i)))
      ensures Loose(cfg, old(S())) ==> Tight(cfg, S())
    {
      WriteUvarint(Zigzag(i));
    }

    method WriteBool(b: bool)
      requires Valid()
      modifies this
      ensures Valid() && Writes(cfg, old(S()), S(), [if b then 1 else 0])
      ensures Loose(cfg, old(S())) ==> Tight(cfg, S())
    {
      if err.Some? {
        return;
      }
      if cfg.sizeOnly {
        sizeAcc := sizeAcc + 1;
        return;
      }
      Append([if b then 1 else 0]);
    }

    /** WriteFixed32 and WriteFixed64. */
    method WriteFixed(width: nat, bits: nat)
      requires Valid()
      modifies this
      ensures Valid() && Writes(cfg, old(S()), S(), LittleEndian(width, bits))
      ensures Loose(cfg, old(S())) && width <= 10 ==> Tight(cfg, S())
    {
      if err.Some? {
        return;
      }
      LittleEndianLength(width, bits);
      if cfg.sizeOnly {
        sizeAcc := sizeAcc + width;
        return;
      }
      Append(LittleEndian(width, bits));
    }

    /** Presence bytes are appended without afterWrite. */
    method WritePresence(state: PresenceState)
      requires Valid()
      modifies this
      ensures Valid() && Writes(cfg, old(S()), S(), [PresenceByte(state)])
      ensures Tight(cfg, old(S())) ==> Loose(cfg, S())
    {
      if err.Some? {
        return;
      }
      if cfg.sizeOnly {
        sizeAcc := sizeAcc + 1;
        return;
      }
      buf := buf + [PresenceByte(state)];
      assert Joined(target) + buf == Joined(target) + old(buf) + [PresenceByte(state)];
    }

    /** WriteString and WriteBytes. */
    method WriteText(text: blob)
      requires Valid()
      modifies this
      ensures Valid() && Writes(cfg, old(S()), S(), Delim(text))
      ensures Loose(cfg, old(S())) ==> Tight(cfg, S())
    {
      if err.Some? {
        return;
      }
      UvarintLength(|text|);
      if cfg.sizeOnly {
        sizeAcc := sizeAcc + VarintLen(|text|) + |text|;
        return;
      }
      buf := AppendUvarint(buf, |text|);
      ghost var mid := S();
      assert Joined(target) + buf == Joined(target) + old(buf) + Uvarint(|text|);
      if cfg.streaming {
        WriteChunked(text);
      } else {
        Append(text);
      }
      WritesThen(cfg, old(S()), mid, S(), Uvarint(|text|), text);
    }

    /** writeChunked and writeChunkedBytes: pieces no larger than the room left below the threshold. */
    method WriteChunked(text: seq<byte>)
      requires Valid() && cfg.streaming && err == None
      modifies this`buf, this`target, this`err
      ensures Writes(cfg, old(S()), S(), text)
      ensures Brimming(cfg, old(S())) ==> Tight(cfg, S())
    {
      hide Writes;
      if cfg.threshold <= 0 {
        Append(text);
        return;
      }
      var rest := text;
      ghost var done: seq<byte> := [];
      Stay(cfg, S());
      while |rest| > 0
        invariant err == None && done + rest == text
        invariant Writes(cfg, old(S()), S(), done)
        invariant Brimming(cfg, old(S())) ==> Brimming(cfg, S())
      {
        ghost var a := S();
        var n := WritePiece(rest);
        WritesThen(cfg, old(S()), a, S(), done, rest[..n]);
        AppendAssoc(done, rest[..n], rest[n..]);
        assert rest[..n] + rest[n..] == rest;
        done := done + rest[..n];
        rest := rest[n..];
        if err.Some? {
          StaysGone(cfg, old(S()), S(), done, text);
          return;
        }
      }
      ghost var c := S();
      AfterWrite();
      WritesThen(cfg, old(S()), c, S(), done, []);
      assert done + [] == text;
    }

    /** One turn of that loop: flush a full buffer, then append what there is room for. */
    method WritePiece(rest: seq<byte>) returns (n: nat)
      requires Valid() && cfg.streaming && err == None && cfg.threshold > 0 && |rest| > 0
      modifies this`buf, this`target, this`err
      ensures 0 < n <= |rest| && Writes(cfg, old(S()), S(), rest[..n])
      ensures Brimming(cfg, old(S())) ==> Loose(cfg, S())
    {
      hide Writes;
      var avail := cfg.threshold - |buf|;
      Stay(cfg, S());
      if avail <= 0 {
        Drain();
        if err.Some? {
          StaysGone(cfg, old(S()), S(), [], rest[..1]);
          return 1;
        }
        avail := cfg.threshold;
      }
      n := Min(|rest|, avail);
      ghost var b := S();
      buf := buf + rest[..n];
      Appended(cfg, b, rest[..n]);
      WritesThen(cfg, old(S()), b, S(), [], rest[..n]);
      assert [] + rest[..n] == rest[..n];
    }

    /** BeginLengthDelim. The marker is the start of the reserved slot, or the count so far in size mode. */
    method BeginLengthDelim() returns (marker: nat)
      requires Valid()
      modifies this
      ensures Valid()
      ensures old(err).Some? ==> S() == old(S())
      ensures old(err) == None && cfg.sizeOnly ==>
                marker == sizeAcc && S() == if cfg.recordRegions then Opened(old(S())) else old(S())
      ensures old(err) == None && cfg.streaming ==>
                if old(streamSizeIdx) < |cfg.streamSizes|
                then Writes(cfg, old(S()).(idx := old(streamSizeIdx) + 1), S(),
                    Uvarint(cfg.streamSizes[old(streamSizeIdx)]))
                else err == Some(Truncated)
      ensures old(err) == None && !cfg.sizeOnly && !cfg.streaming ==>
                marker == |old(buf)| && S() == old(S()).(buf := old(buf) + Reserved())
      ensures Loose(cfg, old(S())) ==> Tight(cfg, S())
    {
      marker := 0;
      if err.Some? {
        return;
      }
      if cfg.sizeOnly {
        if cfg.recordRegions {
          recordedRegions := recordedRegions + [0];
          regionStack := regionStack + [|recordedRegions| - 1];
        }
        marker := sizeAcc;
        return;
      }
      if cfg.streaming {
        if streamSizeIdx >= |cfg.streamSizes| {
          SetErr(Truncated);
          return;
        }
        var size := cfg.streamSizes[streamSizeIdx];
        streamSizeIdx := streamSizeIdx + 1;
        UvarintLength(size);
        var data := AppendUvarint([], size);
        Append(data);
        return;
      }
      marker := |buf|;
      buf := buf + [0, 0, 0, 0, 0];
    }

    /** EndLengthDelim. In the buffered mode the reserved slot and the body behind it become a length-prefixed body. */
    method EndLengthDelim(marker: nat)
      requires Valid()
      modifies this
      ensures Valid()
      ensures old(err).Some? || cfg.streaming ==> S() == old(S())
      ensures old(err) == None && cfg.sizeOnly ==>
                if old(sizeAcc) < marker || (cfg.recordRegions && old(regionStack) == []) then err == Some(Truncated)
                else S() == Closed(cfg, old(S()), old(sizeAcc) - marker)
      ensures old(err) == None && !cfg.sizeOnly && !cfg.streaming ==>
                if |old(buf)| < marker + RESERVED_LEN then err == Some(Truncated)
                else if |old(buf)| - marker - RESERVED_LEN >= TWO_35 then err == Some(BodyTooLarge)
                else S() == old(S()).(buf := old(buf)[..marker] + Delim(old(buf)[marker + RESERVED_LEN..]))
      ensures Loose(cfg, old(S())) ==> Loose(cfg, S())
    {
      if err.Some? {
        return;
      }
      if cfg.sizeOnly {
        if sizeAcc < marker {
          SetErr(Truncated);
          return;
        }
        var bodyLen := sizeAcc - marker;
        if cfg.recordRegions {
          var n := |regionStack|;
          if n == 0 {
            SetErr(Truncated);
            return;
          }
          var idx := regionStack[n - 1];
          regionStack := regionStack[..n - 1];
          recordedRegions := recordedRegions[idx := bodyLen];
        }
        sizeAcc := sizeAcc + VarintLen(bodyLen);
        return;
      }
      if cfg.streaming {
        return;
      }
      if |buf| < marker + RESERVED_LEN {
        SetErr(Truncated);
        return;
      }
      var bodyLen := |buf| - marker - RESERVED_LEN;
      var n := VarintLen(bodyLen);
      if n > RESERVED_LEN {
        SetErr(BodyTooLarge);
        return;
      }
      UvarintLength(bodyLen);
      ShiftLeft(buf, marker, n);
      if n < RESERVED_LEN {
        buf := buf[..marker + n] + buf[marker + RESERVED_LEN..];
      }
      var put, _ := PutUvarint(buf, marker, bodyLen);
      buf := put;
      AppendAssoc(old(buf)[..marker], Uvarint(bodyLen), old(buf)[marker + RESERVED_LEN..]);
    }

    /** WriteCachedString, WriteCachedBytes and WriteCachedAppendBytes, by lane. A callsite's first visits in the size
        pass ask the generator; after adoptScratch each visit finds the answer its own occurrence got. */
    method WriteCached(site: nat, lane: Lane, gen: nat -> Option<blob>)
      requires Valid()
      requires played < |tape| ==> tape[played].site == site && tape[played].lane == lane
      modifies this
      ensures Valid()
      ensures old(err).Some? ==> S() == old(S())
      ensures old(err) == None && old(played) == |old(tape)| && gen(old(calls)) == None ==> err == Some(CodecFailed)
      ensures old(err) == None && (old(played) < |old(tape)| || gen(old(calls)).Some?) ==>
                var data := if old(played) < |old(tape)| then old(tape)[old(played)].data else gen(old(calls)).value;
                if err == None then Advance(cfg, old(S()), S(), Delim(data), [], [Occ(site, lane, data)])
                else TargetGone(cfg, S())
      ensures Loose(cfg, old(S())) ==> Tight(cfg, S())
    {
      if err.Some? {
        return;
      }
      ghost var before := S();
      var answer := TakeAnswer(site, lane, gen);
      if answer == None {
        SetErr(CodecFailed);
        return;
      }
      ghost var mid := S();
      WriteText(answer.value);
      AfterAnswer(cfg, before, mid, S(), Occ(site, lane, answer.value));
    }

    /** The cache lookup shared by the cached writes: hit the entry under the cursor, or ask the generator and keep
        its answer. */
    method TakeAnswer(site: nat, lane: Lane, gen: nat -> Option<blob>) returns (answer: Option<blob>)
      requires Valid() && err == None
      requires played < |tape| ==> tape[played].site == site && tape[played].lane == lane
      modifies this`scratch, this`calls, this`tape, this`played
      ensures Valid()
      ensures answer == if old(played) < |old(tape)| then Some(old(tape)[old(played)].data) else gen(old(calls))
      ensures calls == old(calls) + if old(played) < |old(tape)| then 0 else 1
      ensures answer.Some? ==>
                && played == old(played) + 1
                && tape == if old(played) < |old(tape)| then old(tape) else old(tape) + [Occ(site, lane, answer.value)]
    {
      hide Mirrors, Advanced, WithAnswer, Entry, Answers, Cursor;
      ghost var before := scratch;
      ghost var hit := Cursor(Entry(scratch, site), lane) < |Answers(Entry(scratch, site), lane)|;
      answer := LookUp(site, lane, gen);
      if hit {
        HitMeansReplay(before, tape, played, site, lane);
        Replayed(before, tape, played);
        played := played + 1;
      } else {
        MissMeansFresh(before, tape, played, site, lane);
        if answer.Some? {
          Asked(before, tape, Occ(site, lane, answer.value));
          tape := tape + [Occ(site, lane, answer.value)];
          played := played + 1;
        }
      }
    }

    /** The lookup itself, in whatever order the callsites come: the callsite's own next answer, or the generator's. */
    method LookUp(site: nat, lane: Lane, gen: nat -> Option<blob>) returns (answer: Option<blob>)
      modifies this`scratch, this`calls
      ensures var e := Entry(old(scratch), site);
              if Cursor(e, lane) < |Answers(e, lane)| then
                && answer == Some(Answers(e, lane)[Cursor(e, lane)]) && calls == old(calls)
                && scratch == Visited(old(scratch), site, lane)
              else
                && answer == gen(old(calls)) && calls == old(calls) + 1
                && scratch == if answer.None? then old(scratch)
                              else old(scratch)[site := Advanced(WithAnswer(e, lane, answer.value), lane)]
    {
      var e := Entry(scratch, site);
      var at := Cursor(e, lane);
      if at < |Answers(e, lane)| {
        answer := Some(Answers(e, lane)[at]);
        scratch := scratch[site := Advanced(e, lane)];
        return;
      }
      answer := gen(calls);
      calls := calls + 1;
      if answer.Some? {
        scratch := scratch[site := Advanced(WithAnswer(e, lane, answer.value), lane)];
      }
    }

    /** adoptScratch: take over the answers and rewind every cursor. */
    method AdoptScratch(other: Writer)
      requires other != this && other.Valid() && Valid()
      modifies this, other
      ensures Valid() && other.Valid()
      ensures S() == old(S()).(scratch := scratch, tape := old(other.tape), played := 0, calls := old(other.calls))
      ensures other.scratch == map[]
    {
      hide Mirrors;
      Rewinds(other.scratch, other.tape, other.played);
      NothingMirrored();
      scratch := Rewound(other.scratch);
      calls := other.calls;
      tape, played := other.tape, 0;
      other.scratch := map[];
      other.tape, other.played := [], 0;
    }
  }

  /** The same answers, every cursor at the first. */
  function Rewound(scratch: map<nat, ScratchEntry>): map<nat, ScratchEntry> {
    map k | k in scratch :: scratch[k].(stringsIdx := 0, valuesIdx := 0)
  }

  lemma {:induction false} Rewinds(scratch: map<nat, ScratchEntry>, tape: seq<Occ>, played: nat)
    requires played <= |tape| && Mirrors(scratch, tape, played)
    ensures Mirrors(Rewound(scratch), tape, 0)
  {
    forall site: nat, lane ensures Mirrored(Rewound(scratch), tape, 0, site, lane) {
      assert tape[..0] == [];
      assert Mirrored(scratch, tape, played, site, lane);
    }
  }

  lemma {:induction false} NothingMirrored()
    ensures Mirrors(map[], [], 0)
  {
  }

  function Reserved(): seq<byte> { [0, 0, 0, 0, 0] }

  /** Closing the gap between a shorter length and its body moves neither what is before it nor the body. */
  lemma {:induction false} ShiftLeft(buf: seq<byte>, marker: nat, n: nat)
    requires marker + RESERVED_LEN <= |buf| && n <= RESERVED_LEN
    ensures var shifted := if n < RESERVED_LEN then buf[..marker + n] + buf[marker + RESERVED_LEN..] else buf;
            && shifted[..marker] == buf[..marker]
            && shifted[marker + n..] == buf[marker + RESERVED_LEN..]
  {
  }

  /** A recording writer's state with one more region open. */
  function Opened(a: Snap): Snap {
    a.(recorded := a.recorded + [0], stack := a.stack + [|a.recorded|])
  }

  /** A counting writer's state once the innermost region, of bodyLen bytes, is closed. */
  function Closed(cfg: Config, a: Snap, bodyLen: nat): Snap
    requires cfg.recordRegions ==> |a.stack| > 0 && a.stack[|a.stack| - 1] < |a.recorded|
  {
    var b := a.(sizeAcc := a.sizeAcc + VarintLen(bodyLen));
    if cfg.recordRegions
    then b.(stack := a.stack[..|a.stack| - 1], recorded := a.recorded[a.stack[|a.stack| - 1] := bodyLen])
    else b
  }

  function WithAnswer(e: ScratchEntry, lane: Lane, data: blob): ScratchEntry {
    if lane == Strings then e.(strings := e.strings + [data]) else e.(values := e.values + [data])
  }

  function Advanced(e: ScratchEntry, lane: Lane): ScratchEntry {
    if lane == Strings then e.(stringsIdx := e.stringsIdx + 1) else e.(valuesIdx := e.valuesIdx + 1)
  }

  /** The cache after one hit. */
  function Visited(scratch: map<nat, ScratchEntry>, site: nat, lane: Lane): map<nat, ScratchEntry> {
    scratch[site := Advanced(Entry(scratch, site), lane)]
  }

  /** The cache after hits in any order of callsites and lanes. */
  function AllVisited(scratch: map<nat, ScratchEntry>, visits: seq<(nat, Lane)>): map<nat, ScratchEntry> {
    if |visits| == 0 then scratch
    else Visited(AllVisited(scratch, visits[..|visits| - 1]), visits[|visits| - 1].0, visits[|visits| - 1].1)
  }

  function Visits(visits: seq<(nat, Lane)>, site: nat, lane: Lane): nat {
    if |visits| == 0 then 0
    else Visits(visits[..|visits| - 1], site, lane) + if visits[|visits| - 1] == (site, lane) then 1 else 0
  }

  /** However the visits of callsites and lanes interleave, no visit changes an answer, and each one moves only its own
      cursor: the next visit to a callsite finds that callsite's answer for as many visits as it has had. */
  lemma {:induction false} AnyInterleaving(scratch: map<nat, ScratchEntry>, visits: seq<(nat, Lane)>, site: nat,
                                           lane: Lane)
    ensures var before, after := Entry(scratch, site), Entry(AllVisited(scratch, visits), site);
            && Answers(after, lane) == Answers(before, lane)
            && Cursor(after, lane) == Cursor(before, lane) + Visits(visits, site, lane)
    decreases |visits|
  {
    if |visits| > 0 {
      AnyInterleaving(scratch, visits[..|visits| - 1], site, lane);
    }
  }

  lemma {:induction false} HitMeansReplay(scratch: map<nat, ScratchEntry>, tape: seq<Occ>, played: nat, site: nat,
                                          lane: Lane)
    requires played <= |tape| && Mirrors(scratch, tape, played)
    requires Cursor(Entry(scratch, site), lane) < |Answers(Entry(scratch, site), lane)|
    ensures played < |tape|
  {
    assert tape[..|tape|] == tape;
    assert Mirrored(scratch, tape, played, site, lane);
  }

  lemma {:induction false} MissMeansFresh(scratch: map<nat, ScratchEntry>, tape: seq<Occ>, played: nat, site: nat,
                                          lane: Lane)
    requires played <= |tape| && Mirrors(scratch, tape, played)
    requires played < |tape| ==> tape[played].site == site && tape[played].lane == lane
    requires Cursor(Entry(scratch, site), lane) >= |Answers(Entry(scratch, site), lane)|
    ensures played == |tape|
  {
    assert Mirrored(scratch, tape, played, site, lane);
    if played < |tape| {
      ColumnNext(tape, played, site, lane);
    }
  }

  /** Using up a recorded answer: the cursor stands on it, and moving it keeps the mirror. */
  lemma {:induction false} Replayed(scratch: map<nat, ScratchEntry>, tape: seq<Occ>, played: nat)
    requires played < |tape| && Mirrors(scratch, tape, played)
    ensures var o := tape[played];
            var e := Entry(scratch, o.site);
            && Cursor(e, o.lane) < |Answers(e, o.lane)| && Answers(e, o.lane)[Cursor(e, o.lane)] == o.data
            && Mirrors(scratch[o.site := Advanced(e, o.lane)], tape, played + 1)
  {
    var o := tape[played];
    var e := Entry(scratch, o.site);
    ColumnNext(tape, played, o.site, o.lane);
    assert Mirrored(scratch, tape, played, o.site, o.lane);
    var after, next := scratch[o.site := Advanced(e, o.lane)], played + 1;
    forall site: nat, lane
      ensures Mirrored(after, tape, next, site, lane)
    {
      ColumnNext(tape, played, site, lane);
      assert Mirrored(scratch, tape, played, site, lane);
    }
  }

  /** A new answer goes to the end of its column, and its cursor past it. */
  lemma {:induction false} Asked(scratch: map<nat, ScratchEntry>, tape: seq<Occ>, o: Occ)
    requires Mirrors(scratch, tape, |tape|)
    ensures Mirrors(scratch[o.site := Advanced(WithAnswer(Entry(scratch, o.site), o.lane, o.data), o.lane)],
                    tape + [o], |tape| + 1)
  {
    var after := scratch[o.site := Advanced(WithAnswer(Entry(scratch, o.site), o.lane, o.data), o.lane)];
    var grown, next := tape + [o], |tape| + 1;
    forall site: nat, lane
      ensures Mirrored(after, grown, next, site, lane)
    {
      assert Mirrored(scratch, tape, |tape|, site, lane);
      GrownColumn(tape, o, site, lane);
    }
  }

  lemma {:induction false} GrownColumn(tape: seq<Occ>, o: Occ, site: nat, lane: Lane)
    ensures Column((tape + [o])[..|tape| + 1], site, lane) == Column(tape + [o], site, lane)
    ensures Column(tape + [o], site, lane) == Column(tape, site, lane) + IfKey(o, site, lane)
    ensures tape[..|tape|] == tape
  {
    var grown := tape + [o];
    assert grown[..|tape| + 1] == grown && grown[..|grown| - 1] == tape;
  }

  /** One answer used up and then written. */
  lemma {:induction false} AfterAnswer(cfg: Config, a: Snap, mid: Snap, b: Snap, o: Occ)
    requires a.err == None && a.played <= |a.tape| && Writes(cfg, mid, b, Delim(o.data))
    requires mid == a.(scratch := mid.scratch, played := a.played + 1, tape := mid.tape, calls := mid.calls)
    requires (a.played < |a.tape| && mid.tape == a.tape && mid.calls == a.calls && a.tape[a.played] == o)
             || (a.played == |a.tape| && mid.tape == a.tape + [o] && mid.calls == a.calls + 1)
    ensures b.err == None ==> Advance(cfg, a, b, Delim(o.data), [], [o])
    ensures b.err != None ==> TargetGone(cfg, b)
  {
    assert mid.tape[a.played..a.played + 1] == [o];
    assert a.recorded + [] == a.recorded;
  }
}
