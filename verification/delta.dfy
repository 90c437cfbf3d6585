/** Applying Git deltas (lib/delta.c). */
module Deltas {
  import opened Bytes
  import opened DeltaStream

  const RESULT_SIZE_CACHED_MAX: nat := 8 * 1024 * 1024
  const COPY_CHUNK: nat := 2048

  datatype Option<T> = None | Some(value: T)

  /** The C cursor: p indexes the current byte, remain counts it and all after. */
  ghost predicate CursorOk(s: seq<Byte>, p: nat, remain: nat) {
    p + remain == |s|
  }

  /** next_delta_byte() */
  method NextDeltaByte(s: seq<Byte>, p: nat, remain: nat) returns (err: Option<Error>, p': nat, remain': nat)
    requires CursorOk(s, p, remain) && remain > 0
    ensures err == if p + 1 == |s| then Some(BadDelta) else None
    ensures err.None? ==> CursorOk(s, p', remain') && p' == p + 1 && remain' > 0
  {
    p', remain' := p, remain - 1;
    if remain' == 0 {
      return Some(BadDelta), p', remain';
    }
    return None, p' + 1, remain';
  }

  lemma ModAdd(full: nat, more: nat)
    ensures (full % U64 + more) % U64 == (full + more) % U64
  {
  }

  lemma Horner(full: nat, i: nat, v: nat, rest: nat)
    ensures full + Pow128(i) * (v + 128 * rest) == full + v * Pow128(i) + Pow128(i + 1) * rest
  {
    assert Pow128(i + 1) == 128 * Pow128(i);
    assert Pow128(i) * (128 * rest) == 128 * Pow128(i) * rest;
    assert Pow128(i) * (v + 128 * rest) == Pow128(i) * v + Pow128(i) * (128 * rest);
  }

  /** What remains to be said about a size field once i bytes, worth `full`, have
      been read. */
  ghost function SizeFrom(s: seq<Byte>, p: nat, i: nat, full: nat): Result<(nat, nat)>
    requires p < |s|
  {
    match SizeAt(s, p, i)
    case Ok((v, j)) => Ok(((full + Pow128(i) * v) % U64, j))
    case Err(e) => Err(e)
  }

  lemma SizeFromLast(s: seq<Byte>, p: nat, i: nat, full: nat)
    requires p < |s| && i <= 9 && s[p] < 128
    ensures SizeFrom(s, p, i, full) == Ok(((full + s[p] * Pow128(i)) % U64, p))
  {
    hide Pow128;
    var v: nat := s[p];
    assert v * Pow128(i) == Pow128(i) * v;
  }

  lemma SizeFromMore(s: seq<Byte>, p: nat, i: nat, full: nat)
    requires p < |s| && i <= 9 && s[p] >= 128
    ensures SizeFrom(s, p, i, full) ==
            if p + 1 == |s| then Err(BadDelta) else SizeFrom(s, p + 1, i + 1, full + (s[p] - 128) * Pow128(i))
  {
    if p + 1 < |s| && SizeAt(s, p + 1, i + 1).Ok? {
      Horner(full, i, s[p] - 128, SizeAt(s, p + 1, i + 1).value.0);
    }
  }

  lemma SizeFromStart(s: seq<Byte>, p: nat)
    requires p < |s|
    ensures match SizeAt(s, p, 0)
            case Ok((v, j)) => SizeFrom(s, p, 0, 0) == Ok((v % U64, j))
            case Err(e) => SizeFrom(s, p, 0, 0) == Err(e)
  {
  }

  lemma SizeFromTooLong(s: seq<Byte>, p: nat, i: nat, full: nat)
    requires p < |s| && i > 9
    ensures SizeFrom(s, p, i, full) == Err(NoSpace)
  {
  }

  /** parse_size(); the size is kept modulo 2^64. */
  method ParseSize(s: seq<Byte>, p0: nat, remain0: nat) returns (err: Option<Error>, size: nat, p: nat, remain: nat)
    requires CursorOk(s, p0, remain0) && remain0 > 0
    ensures match SizeAt(s, p0, 0)
            case Err(e) => err == Some(e)
            case Ok((v, j)) => err.None? && size == v % U64 && p == j && CursorOk(s, p, remain) && remain > 0
  {
    hide SizeAt, SizeFrom;
    p, remain, size, err := p0, remain0, 0, None;
    var i := 0;
    ghost var full: nat := 0;
    SizeFromStart(s, p0);
    ghost var from := SizeFrom(s, p0, 0, 0);
    while true
      invariant CursorOk(s, p, remain) && remain > 0 && err.None?
      invariant size == full % U64 && from == SizeFrom(s, p, i, full) && (i == 0 ==> full == 0)
      decreases remain
    {
      if i > 9 {
        SizeFromTooLong(s, p, i, full);
        return Some(NoSpace), size, p, remain;
      }
      var v: nat := s[p] % 128;
      ModAdd(full, v * Pow128(i));
      size := if i == 0 then v else (size + v * Pow128(i)) % U64;
      assert i == 0 ==> v * Pow128(i) == v;
      assert size == (full + v * Pow128(i)) % U64;
      if s[p] < 128 {
        SizeFromLast(s, p, i, full);
        break;
      }
      SizeFromMore(s, p, i, full);
      full := full + v * Pow128(i);
      i := i + 1;
      err, p, remain := NextDeltaByte(s, p, remain);
      if err.Some? {
        return err, size, p, remain;
      }
    }
  }

  /** parse_delta_sizes() */
  method ParseDeltaSizes(s: seq<Byte>) returns (err: Option<Error>, baseSize: nat, resultSize: nat, p: nat, remain: nat)
    requires s != []
    ensures match SizesAt(s)
            case Err(e) => err == Some(e)
            case Ok((b, r, j)) =>
              err.None? && baseSize == b && resultSize == r && p == j && CursorOk(s, p, remain) && remain > 0
  {
    resultSize := 0;
    err, baseSize, p, remain := ParseSize(s, 0, |s|);
    if err.Some? {
      return;
    }
    err, p, remain := NextDeltaByte(s, p, remain);
    if err.Some? {
      return;
    }
    err, resultSize, p, remain := ParseSize(s, p, remain);
  }

  ghost predicate OperandHere(s: seq<Byte>, i: nat, op: Byte, k: nat, b: Byte)
    requires k < 7
  {
    i + Count(op, k + 1) < |s| && b == if Bit(op, k) then s[i + Count(op, k + 1)] else 0
  }

  /** One operand of parse_opcode(): fetched when its bit is set. */
  method OperandByte(s: seq<Byte>, opcode: Byte, k: nat, ghost i: nat, p: nat, remain: nat)
    returns (err: Option<Error>, b: Byte, p': nat, remain': nat)
    requires k < 7 && CursorOk(s, p, remain) && remain > 0 && p == i + Count(opcode, k)
    ensures err == if i + Count(opcode, k + 1) >= |s| then Some(BadDelta) else None
    ensures err.None? ==>
              && CursorOk(s, p', remain') && remain' > 0 && p' == i + Count(opcode, k + 1)
              && OperandHere(s, i, opcode, k, b)
  {
    hide Bit;
    err, b, p', remain' := None, 0, p, remain;
    if Bit(opcode, k) {
      err, p', remain' := NextDeltaByte(s, p, remain);
      if err.Some? {
        return;
      }
      b := s[p'];
    }
  }

  lemma OperandsJoin(s: seq<Byte>, i: nat, b: seq<Byte>)
    requires i < |s| && |b| == 7 && i + Count(s[i], 7) < |s|
    requires forall k | 0 <= k < 7 :: OperandHere(s, i, s[i], k, b[k])
    ensures CopyOffset(s, i) == b[0] as int + 0x100 * b[1] as int + 0x1_0000 * b[2] as int + 0x100_0000 * b[3] as int
    ensures CopyLenField(s, i) == b[4] as int + 0x100 * b[5] as int + 0x1_0000 * b[6] as int
  {
    hide Bit;
    forall k | 0 <= k < 7
      ensures Operand(s, i, k) == b[k]
    {
      assert OperandHere(s, i, s[i], k, b[k]);
    }
    hide Operand;
  }

  /** parse_opcode(); or-ing the shifted bytes is adding them, as their bits are
      disjoint. */
  method ParseOpcode(s: seq<Byte>, p0: nat, remain0: nat)
    returns (err: Option<Error>, offset: nat, len: nat, p: nat, remain: nat)
    requires CursorOk(s, p0, remain0) && remain0 > 0
    ensures err == if p0 + Count(s[p0], 7) >= |s| then Some(BadDelta) else None
    ensures err.None? ==>
              && CursorOk(s, p, remain) && remain > 0 && p == p0 + Count(s[p0], 7)
              && offset == CopyOffset(s, p0) && len == CopyLen(CopyLenField(s, p0))
  {
    hide Count;
    var opcode := s[p0];
    p, remain, offset, len := p0, remain0, 0, 0;
    CountOrdered(opcode);
    var b0, b1, b2, b3, b4, b5, b6;
    err, b0, p, remain := OperandByte(s, opcode, 0, p0, p, remain);
    if err.Some? {
      return;
    }
    offset := b0;
    err, b1, p, remain := OperandByte(s, opcode, 1, p0, p, remain);
    if err.Some? {
      return;
    }
    offset := offset + 0x100 * b1 as int;
    err, b2, p, remain := OperandByte(s, opcode, 2, p0, p, remain);
    if err.Some? {
      return;
    }
    offset := offset + 0x1_0000 * b2 as int;
    err, b3, p, remain := OperandByte(s, opcode, 3, p0, p, remain);
    if err.Some? {
      return;
    }
    offset := offset + 0x100_0000 * b3 as int;
    err, b4, p, remain := OperandByte(s, opcode, 4, p0, p, remain);
    if err.Some? {
      return;
    }
    len := b4;
    err, b5, p, remain := OperandByte(s, opcode, 5, p0, p, remain);
    if err.Some? {
      return;
    }
    len := len + 0x100 * b5 as int;
    err, b6, p, remain := OperandByte(s, opcode, 6, p0, p, remain);
    if err.Some? {
      return;
    }
    len := len + 0x1_0000 * b6 as int;
    OperandsJoin(s, p0, [b0, b1, b2, b3, b4, b5, b6]);
    if len == 0 {
      len := COPY_DEFAULT_LEN;
    }
  }

  lemma CountOrdered(op: Byte)
    ensures Count(op, 0) == 0
    ensures Count(op, 1) <= Count(op, 7) && Count(op, 2) <= Count(op, 7) && Count(op, 3) <= Count(op, 7)
    ensures Count(op, 4) <= Count(op, 7) && Count(op, 5) <= Count(op, 7) && Count(op, 6) <= Count(op, 7)
  {
    CountGrows(op, 1, 7);
    CountGrows(op, 2, 7);
    CountGrows(op, 3, 7);
    CountGrows(op, 4, 7);
    CountGrows(op, 5, 7);
    CountGrows(op, 6, 7);
  }

  // ------------------------------------------------------------ applying

  function After(done: seq<Byte>, rest: Result<seq<Byte>>): Result<seq<Byte>> {
    match rest
    case Ok(out) => Ok(done + out)
    case Err(e) => Err(e)
  }

  /** One instruction's part of what is left to produce. */
  lemma AfterInstr(base: seq<Byte>, s: seq<Byte>, p: nat, done: seq<Byte>)
    requires p < |s|
    ensures After(done, Expand(base, s, p)).Ok? ==> InstrAt(s, p).Ok? && InBase(base, InstrAt(s, p).value.0)
    ensures InstrAt(s, p).Ok? && InBase(base, InstrAt(s, p).value.0) ==>
              After(done, Expand(base, s, p)) ==
              After(done + Piece(base, InstrAt(s, p).value.0), Expand(base, s, InstrAt(s, p).value.1))
  {
    var r := InstrAt(s, p);
    if r.Ok? && InBase(base, r.value.0) && Expand(base, s, r.value.1).Ok? {
      var piece, rest := Piece(base, r.value.0), Expand(base, s, r.value.1).value;
      assert done + (piece + rest) == done + piece + rest;
    }
  }

  /** The same, by the cases the code distinguishes. */
  lemma AfterCases(base: seq<Byte>, s: seq<Byte>, p: nat, done: seq<Byte>)
    requires p < |s|
    ensures var left := After(done, Expand(base, s, p));
            if Bit(s[p], 7) then
              if p + Count(s[p], 7) >= |s| then left.Err? else
              var offset, len := CopyOffset(s, p), CopyLen(CopyLenField(s, p));
              && len > 0
              && (if offset + len > |base| then left.Err? else
                  left == After(done + base[offset..offset + len], Expand(base, s, p + Count(s[p], 7) + 1)))
            else if s[p] == 0 || p + s[p] >= |s| then left.Err?
            else left == After(done + s[p + 1..p + s[p] + 1], Expand(base, s, p + s[p] + 1))
  {
    hide Expand, After, CopyOffset, CopyLenField;
    AfterInstr(base, s, p, done);
  }

  /** memcpy() to outbuf + at. */
  method MemCopy(outbuf: array<Byte>, at: nat, data: seq<Byte>)
    requires at + |data| <= outbuf.Length
    modifies outbuf
    ensures outbuf[..at + |data|] == old(outbuf[..at]) + data
    ensures forall k | at + |data| <= k < outbuf.Length :: outbuf[k] == old(outbuf[k])
  {
    forall k | 0 <= k < |data| {
      outbuf[at + k] := data[k];
    }
  }

  /** What a stream denotes, once its sizes have been parsed. */
  lemma DenotedIs(base: seq<Byte>, s: seq<Byte>)
    requires |s| >= STREAM_LENGTH_MIN
    ensures SizesAt(s).Err? ==> Denoted(base, s).Err?
    ensures SizesAt(s).Ok? ==>
              var j := SizesAt(s).value.2 + 1;
              if j == |s| then Denoted(base, s).Err? else
              var out := After([], Expand(base, s, j));
              if out.Ok? && |out.value| == SizesAt(s).value.1 then Denoted(base, s) == out else Denoted(base, s).Err?
  {
    if SizesAt(s).Ok? {
      var j := SizesAt(s).value.2 + 1;
      if j < |s| && Expand(base, s, j).Ok? {
        assert [] + Expand(base, s, j).value == Expand(base, s, j).value;
      }
    }
  }

  /** The rest of a complete stream adds nothing. */
  lemma AfterEnd(base: seq<Byte>, s: seq<Byte>, done: seq<Byte>)
    ensures After(done, Expand(base, s, |s|)) == Ok(done)
  {
    assert done + [] == done;
  }

  /** The instruction loop of got_delta_apply_in_mem(). */
  method ExecuteInMem(base: seq<Byte>, delta: seq<Byte>, p0: nat, remain0: nat, outbuf: array<Byte>, maxoutsize: nat)
    returns (err: Option<Error>, outsize: nat)
    requires CursorOk(delta, p0, remain0) && remain0 > 0 && maxoutsize <= outbuf.Length
    modifies outbuf
    ensures outsize <= maxoutsize && forall k | maxoutsize <= k < outbuf.Length :: outbuf[k] == old(outbuf[k])
    ensures err.None? ==> Expand(base, delta, p0) == Ok(outbuf[..outsize])
    ensures err.Some? ==> Expand(base, delta, p0).Ok? ==> |Expand(base, delta, p0).value| > maxoutsize
  {
    hide Count, Expand, Bit, CopyOffset, CopyLen, CopyLenField;
    var p: nat, remain: nat := p0, remain0;
    outsize, err := 0, None;
    ghost var goal := Expand(base, delta, p);
    assert outbuf[..0] == [];
    AfterNothing(goal);
    while err.None? && remain > 0
      invariant outsize <= maxoutsize
      invariant err.None? ==> CursorOk(delta, p, remain) && After(outbuf[..outsize], Expand(base, delta, p)) == goal
      invariant err.Some? && goal.Ok? ==> |goal.value| > maxoutsize
      invariant forall k | maxoutsize <= k < outbuf.Length :: outbuf[k] == old(outbuf[k])
      decreases remain, err.None?
    {
      AfterCases(base, delta, p, outbuf[..outsize]);
      if Bit(delta[p], 7) {
        var offset, len;
        err, offset, len, p, remain := ParseOpcode(delta, p, remain);
        if err.Some? {
          break;
        }
        if |base| < offset + len || outsize + len > maxoutsize {
          err := Some(BadDelta);
          break;
        }
        MemCopy(outbuf, outsize, base[offset..offset + len]);
        outsize := outsize + len;
        if remain > 0 {
          p, remain := p + 1, remain - 1;
        }
      } else {
        var len: nat := delta[p];
        if len == 0 {
          err := Some(BadDelta);
          break;
        }
        err, p, remain := NextDeltaByte(delta, p, remain);
        if err.Some? {
          break;
        }
        if remain < len || outsize + len > maxoutsize {
          err := Some(BadDelta);
          break;
        }
        MemCopy(outbuf, outsize, delta[p..p + len]);
        p, remain, outsize := p + len, remain - len, outsize + len;
      }
    }
    if err.None? {
      AfterEnd(base, delta, outbuf[..outsize]);
    }
  }

  lemma AfterNothing(rest: Result<seq<Byte>>)
    ensures After([], rest) == rest
  {
    if rest.Ok? {
      assert [] + rest.value == rest.value;
    }
  }

  /** got_delta_apply_in_mem(). */
  method ApplyInMem(base: seq<Byte>, delta: seq<Byte>, outbuf: array<Byte>, maxoutsize: nat)
    returns (err: Option<Error>, outsize: nat)
    requires maxoutsize <= outbuf.Length
    modifies outbuf
    ensures err.None? <==> Denoted(base, delta).Ok? && |Denoted(base, delta).value| <= maxoutsize
    ensures err.None? ==> outsize == |Denoted(base, delta).value| && outbuf[..outsize] == Denoted(base, delta).value
    ensures forall k | maxoutsize <= k < outbuf.Length :: outbuf[k] == old(outbuf[k])
  {
    hide Expand, SizeAt;
    outsize := 0;
    if |delta| < STREAM_LENGTH_MIN {
      assert Denoted(base, delta).Err?;
      return Some(BadDelta), outsize;
    }
    DenotedIs(base, delta);
    var baseSize, resultSize;
    var p: nat, remain: nat;
    err, baseSize, resultSize, p, remain := ParseDeltaSizes(delta);
    if err.Some? {
      return;
    }
    err, p, remain := NextDeltaByte(delta, p, remain);
    if err.None? {
      AfterNothing(Expand(base, delta, p));
    }
    if err.None? {
      err, outsize := ExecuteInMem(base, delta, p, remain, outbuf, maxoutsize);
    }
    if outsize != resultSize {
      err := Some(BadDelta);
    }
  }

  /** A file written at its end. */
  class OutFile {
    var data: seq<Byte>

    constructor ()
      ensures data == []
    {
      data := [];
    }
  }

  /** copy_from_base(): reading past the end of the base is an error. */
  method CopyFromBase(base: seq<Byte>, offset: nat, size: nat, out: OutFile) returns (err: Option<Error>)
    requires size > 0
    modifies out
    ensures err == if offset + size <= |base| then None else Some(Io)
    ensures err.None? ==> out.data == old(out.data) + base[offset..offset + size]
    ensures old(out.data) <= out.data
  {
    var left, at := size, offset;
    while left > 0
      invariant at + left == offset + size && 0 <= left <= size
      invariant at <= |base| || left == size
      invariant left < size ==> out.data == old(out.data) + base[offset..at]
      invariant left == size ==> out.data == old(out.data)
    {
      var len := if left < COPY_CHUNK then left else COPY_CHUNK;
      if at + len > |base| {
        return Some(Io);
      }
      out.data := out.data + base[at..at + len];
      left, at := left - len, at + len;
    }
    return None;
  }

  /** copy_from_delta() */
  method CopyFromDelta(s: seq<Byte>, p: nat, remain: nat, len: nat, out: OutFile)
    returns (err: Option<Error>, p': nat, remain': nat)
    requires CursorOk(s, p, remain)
    modifies out
    ensures err == if len <= remain then None else Some(BadDelta)
    ensures err.None? ==> CursorOk(s, p', remain') && p' == p + len && out.data == old(out.data) + s[p..p + len]
    ensures err.Some? ==> out.data == old(out.data) && (p', remain') == (p, remain)
  {
    if remain < len {
      return Some(BadDelta), p, remain;
    }
    out.data := out.data + s[p..p + len];
    return None, p + len, remain - len;
  }

  /** The instruction loop of got_delta_apply(), writing to the memory stream or
      the file. */
  method ApplyInstrs(base: seq<Byte>, delta: seq<Byte>, p0: nat, remain0: nat, out: OutFile)
    returns (err: Option<Error>, outsize: nat)
    requires CursorOk(delta, p0, remain0) && remain0 > 0
    modifies out
    ensures old(out.data) <= out.data
    ensures err.None? <==> Expand(base, delta, p0).Ok?
    ensures err.None? ==>
              && out.data == old(out.data) + Expand(base, delta, p0).value
              && outsize == |Expand(base, delta, p0).value|
  {
    hide Count, Expand, Bit, CopyOffset, CopyLen, CopyLenField;
    var p: nat, remain: nat := p0, remain0;
    outsize, err := 0, None;
    ghost var done: seq<Byte> := [];
    ghost var goal := After([], Expand(base, delta, p));
    while err.None? && remain > 0
      invariant old(out.data) <= out.data
      invariant err.None? ==>
                  && CursorOk(delta, p, remain) && out.data == old(out.data) + done && |done| == outsize
                  && After(done, Expand(base, delta, p)) == goal
      invariant err.Some? ==> goal.Err?
      decreases remain, err.None?
    {
      AfterCases(base, delta, p, done);
      if Bit(delta[p], 7) {
        var offset, len;
        err, offset, len, p, remain := ParseOpcode(delta, p, remain);
        if err.Some? {
          break;
        }
        err := CopyFromBase(base, offset, len, out);
        if err.None? {
          done := done + base[offset..offset + len];
          outsize := outsize + len;
          if remain > 0 {
            p, remain := p + 1, remain - 1;
          }
        }
      } else {
        var len: nat := delta[p];
        if len == 0 {
          err := Some(BadDelta);
          break;
        }
        err, p, remain := NextDeltaByte(delta, p, remain);
        if err.Some? {
          break;
        }
        ghost var at := p;
        err, p, remain := CopyFromDelta(delta, p, remain, len, out);
        if err.None? {
          done := done + delta[at..at + len];
          outsize := outsize + len;
        }
      }
    }
    if err.None? {
      AfterEnd(base, delta, done);
    }
    assert forall x: seq<Byte> :: [] + x == x;
  }

  /** got_delta_apply(): small results are built in memory and reach the file only
      on success. */
  method Apply(base: seq<Byte>, delta: seq<Byte>, outfile: OutFile) returns (err: Option<Error>, outsize: nat)
    modifies outfile
    ensures err.None? <==> Denoted(base, delta).Ok?
    ensures err.None? ==>
              outsize == |Denoted(base, delta).value| && outfile.data == old(outfile.data) + Denoted(base, delta).value
    ensures old(outfile.data) <= outfile.data
    ensures err.Some? && (|delta| > 0 && SizesAt(delta).Ok? ==> SizesAt(delta).value.1 < RESULT_SIZE_CACHED_MAX) ==>
              outfile.data == old(outfile.data)
  {
    hide Expand, SizeAt;
    outsize := 0;
    if |delta| < STREAM_LENGTH_MIN {
      assert Denoted(base, delta).Err?;
      return Some(BadDelta), outsize;
    }
    DenotedIs(base, delta);
    var baseSize, resultSize;
    var p: nat, remain: nat;
    err, baseSize, resultSize, p, remain := ParseDeltaSizes(delta);
    if err.Some? {
      return;
    }
    var memstream: OutFile? := null;
    if resultSize < RESULT_SIZE_CACHED_MAX {
      memstream := new OutFile();
    }
    err, p, remain := NextDeltaByte(delta, p, remain);
    if err.None? {
      assert forall x: seq<Byte> :: [] + x == x;
      err, outsize := ApplyInstrs(base, delta, p, remain, if memstream != null then memstream else outfile);
    }
    if outsize != resultSize {
      err := Some(BadDelta);
    }
    if memstream != null && err.None? {
      outfile.data := outfile.data + memstream.data;
    }
  }

  /** The two versions agree: the one in memory succeeds exactly when the other
      does and the result fits, with the same result. */
  method BothAgree(base: seq<Byte>, delta: seq<Byte>, outbuf: array<Byte>, outfile: OutFile)
    returns (inMem: bool, inFile: bool)
    modifies outbuf, outfile
    ensures inMem ==> inFile
    ensures inFile && |outfile.data| - |old(outfile.data)| <= outbuf.Length ==> inMem
    ensures inMem ==> old(outfile.data) <= outfile.data && outfile.data[|old(outfile.data)|..] <= outbuf[..]
  {
    var err1, n1 := ApplyInMem(base, delta, outbuf, outbuf.Length);
    var err2, n2 := Apply(base, delta, outfile);
    inMem, inFile := err1.None?, err2.None?;
    if inMem {
      assert outfile.data[|old(outfile.data)|..] == outbuf[..n1];
    }
  }
}
