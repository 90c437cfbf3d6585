/** Git delta streams (lib/got_lib_delta.h): what a stream of copy and insert
  instructions denotes, and how instructions are written down.
*/
module DeltaStream {
  import opened Bytes

  datatype Error = BadDelta | NoSpace | Io

  datatype Result<T> = Ok(value: T) | Err(error: Error)

  datatype Instr = Copy(offset: nat, len: nat) | Insert(data: seq<Byte>)

  const U64: nat := 0x1_0000_0000_0000_0000
  const COPY_DEFAULT_LEN: nat := 0x1_0000
  const STREAM_LENGTH_MIN: nat := 4

  // ------------------------------------------------------------ size fields

  /** The size field that starts at index i, of which k bytes have been read:
      seven bits a byte, the low ones first, at most ten bytes. The answer names
      the index of its last byte. */
  function SizeAt(s: seq<Byte>, i: nat, k: nat): (r: Result<(nat, nat)>)
    requires i < |s|
    ensures r.Ok? ==> i <= r.value.1 < |s|
    decreases |s| - i
  {
    if k > 9 then Err(NoSpace)
    else if s[i] < 128 then Ok((s[i], i))
    else if i + 1 == |s| then Err(BadDelta)
    else
      match SizeAt(s, i + 1, k + 1)
      case Ok((v, j)) => Ok((s[i] - 128 + 128 * v, j))
      case Err(e) => Err(e)
  }

  /** Both size fields; the answer names the last index of the second. */
  function SizesAt(s: seq<Byte>): (r: Result<(nat, nat, nat)>)
    requires s != []
    ensures r.Ok? ==> r.value.2 < |s|
  {
    match SizeAt(s, 0, 0)
    case Err(e) => Err(e)
    case Ok((base, j)) =>
      if j + 1 == |s| then Err(BadDelta) else
      match SizeAt(s, j + 1, 0)
      case Err(e) => Err(e)
      case Ok((result, k)) => Ok((base % U64, result % U64, k))
  }

  function EncodeSize(n: nat): (s: seq<Byte>)
    ensures s != []
  {
    if n < 128 then [n] else [128 + n % 128] + EncodeSize(n / 128)
  }

  ghost predicate StandsAt(s: seq<Byte>, i: nat, part: seq<Byte>) {
    i + |part| <= |s| && forall k | 0 <= k < |part| :: s[i + k] == part[k]
  }

  /** A written size reads back, if ten bytes are enough for it. */
  lemma {:induction false} SizeBack(s: seq<Byte>, i: nat, k: nat, n: nat)
    requires StandsAt(s, i, EncodeSize(n)) && k + |EncodeSize(n)| <= 10
    ensures SizeAt(s, i, k) == Ok((n, i + |EncodeSize(n)| - 1))
    decreases n
  {
    assert s[i] == EncodeSize(n)[0];
    if n >= 128 {
      var rest := EncodeSize(n / 128);
      assert forall j | 0 <= j < |rest| :: rest[j] == EncodeSize(n)[j + 1];
      assert StandsAt(s, i + 1, rest);
      SizeBack(s, i + 1, k + 1, n / 128);
    }
  }

  /** Ten bytes are enough for 64 bits. */
  lemma {:induction false} SizeLength(n: nat, bytes: nat)
    requires 0 < bytes && n < Pow128(bytes)
    ensures |EncodeSize(n)| <= bytes
    decreases bytes
  {
    if n >= 128 {
      PowOne();
      assert Pow128(bytes) == 128 * Pow128(bytes - 1);
      SizeLength(n / 128, bytes - 1);
    }
  }

  lemma PowOne()
    ensures Pow128(1) == 128
  {
    assert Pow128(1) == 128 * Pow128(0);
  }

  function Pow128(k: nat): (r: nat)
    ensures r > 0
  {
    if k == 0 then 1 else 128 * Pow128(k - 1)
  }

  // ------------------------------------------------------------ instructions

  function Bit(op: Byte, k: nat): bool
    requires k < 8
  {
    match k
    case 0 => op % 2 == 1
    case 1 => op / 2 % 2 == 1
    case 2 => op / 4 % 2 == 1
    case 3 => op / 8 % 2 == 1
    case 4 => op / 16 % 2 == 1
    case 5 => op / 32 % 2 == 1
    case 6 => op / 64 % 2 == 1
    case _ => op / 128 % 2 == 1
  }

  const COPY_OFF1 := 0x01
  const COPY_OFF2 := 0x02
  const COPY_OFF3 := 0x04
  const COPY_OFF4 := 0x08
  const COPY_LEN1 := 0x10
  const COPY_LEN2 := 0x20
  const COPY_LEN3 := 0x40
  const BASE_COPY := 0x80

  /** The bits are the masks an opcode is made of. */
  lemma BitsAreMasks(op: Byte)
    ensures op as int ==
            (if Bit(op, 0) then COPY_OFF1 else 0) + (if Bit(op, 1) then COPY_OFF2 else 0)
            + (if Bit(op, 2) then COPY_OFF3 else 0) + (if Bit(op, 3) then COPY_OFF4 else 0)
            + (if Bit(op, 4) then COPY_LEN1 else 0) + (if Bit(op, 5) then COPY_LEN2 else 0)
            + (if Bit(op, 6) then COPY_LEN3 else 0) + (if Bit(op, 7) then BASE_COPY else 0)
  {
    hide Bit;
    var b0, b1, b2, b3, b4, b5, b6, b7 := BitValues(op);
  }

  lemma BitValues(op: Byte) returns (b0: nat, b1: nat, b2: nat, b3: nat, b4: nat, b5: nat, b6: nat, b7: nat)
    ensures op as int == b0 + 2 * b1 + 4 * b2 + 8 * b3 + 16 * b4 + 32 * b5 + 64 * b6 + 128 * b7
    ensures b0 == (if Bit(op, 0) then 1 else 0) && b1 == (if Bit(op, 1) then 1 else 0)
    ensures b2 == (if Bit(op, 2) then 1 else 0) && b3 == (if Bit(op, 3) then 1 else 0)
    ensures b4 == (if Bit(op, 4) then 1 else 0) && b5 == (if Bit(op, 5) then 1 else 0)
    ensures b6 == (if Bit(op, 6) then 1 else 0) && b7 == (if Bit(op, 7) then 1 else 0)
  {
    hide Bit;
    var n := op as int;
    Halves(n);
    BitIs(op);
    Weights(n, n / 2, n / 4, n / 8, n / 16, n / 32, n / 64, n / 128);
    b0, b1, b2, b3 := n % 2, n / 2 % 2, n / 4 % 2, n / 8 % 2;
    b4, b5, b6, b7 := n / 16 % 2, n / 32 % 2, n / 64 % 2, n / 128 % 2;
  }

  lemma BitIs(op: Byte)
    ensures Bit(op, 0) == (op % 2 == 1) && Bit(op, 1) == (op / 2 % 2 == 1) && Bit(op, 2) == (op / 4 % 2 == 1)
    ensures Bit(op, 3) == (op / 8 % 2 == 1) && Bit(op, 4) == (op / 16 % 2 == 1) && Bit(op, 5) == (op / 32 % 2 == 1)
    ensures Bit(op, 6) == (op / 64 % 2 == 1) && Bit(op, 7) == (op / 128 % 2 == 1)
  {
  }

  lemma Halves(n: nat)
    requires n < 256
    ensures n / 2 / 2 == n / 4 && n / 4 / 2 == n / 8 && n / 8 / 2 == n / 16 && n / 16 / 2 == n / 32
    ensures n / 32 / 2 == n / 64 && n / 64 / 2 == n / 128 && n / 128 / 2 == 0
  {
  }

  lemma Weights(q0: nat, q1: nat, q2: nat, q3: nat, q4: nat, q5: nat, q6: nat, q7: nat)
    requires q1 == q0 / 2 && q2 == q1 / 2 && q3 == q2 / 2 && q4 == q3 / 2
    requires q5 == q4 / 2 && q6 == q5 / 2 && q7 == q6 / 2 && q7 / 2 == 0
    ensures q0 == q0 % 2 + 2 * (q1 % 2) + 4 * (q2 % 2) + 8 * (q3 % 2)
                  + 16 * (q4 % 2) + 32 * (q5 % 2) + 64 * (q6 % 2) + 128 * (q7 % 2)
  {
  }

  /** How many of the operand bytes 0..k-1 are present. */
  function Count(op: Byte, k: nat): (n: nat)
    requires k <= 7
    ensures n <= k
  {
    if k == 0 then 0 else Count(op, k - 1) + if Bit(op, k - 1) then 1 else 0
  }

  lemma {:induction false} CountGrows(op: Byte, j: nat, k: nat)
    requires j <= k <= 7
    ensures Count(op, j) <= Count(op, k)
    ensures j < k && Bit(op, j) ==> Count(op, j) < Count(op, k)
  {
    if j < k {
      CountGrows(op, j, k - 1);
    }
  }

  /** Operand byte k of the copy instruction at index i; absent ones are zero. */
  function Operand(s: seq<Byte>, i: nat, k: nat): Byte
    requires i < |s| && k < 7 && i + Count(s[i], 7) < |s|
  {
    CountGrows(s[i], k, 7);
    if Bit(s[i], k) then s[i + Count(s[i], k) + 1] else 0
  }

  function CopyOffset(s: seq<Byte>, i: nat): nat
    requires i < |s| && i + Count(s[i], 7) < |s|
  {
    Operand(s, i, 0) as int + 0x100 * Operand(s, i, 1) as int + 0x1_0000 * Operand(s, i,
        2) as int + 0x100_0000 * Operand(s, i, 3) as int
  }

  function CopyLenField(s: seq<Byte>, i: nat): nat
    requires i < |s| && i + Count(s[i], 7) < |s|
  {
    Operand(s, i, 4) as int + 0x100 * Operand(s, i, 5) as int + 0x1_0000 * Operand(s, i, 6) as int
  }

  function CopyLen(field: nat): nat {
    if field == 0 then COPY_DEFAULT_LEN else field
  }

  /** The instruction at index i, and the index after it. */
  function InstrAt(s: seq<Byte>, i: nat): (r: Result<(Instr, nat)>)
    requires i < |s|
    ensures r.Ok? ==> i < r.value.1 <= |s|
  {
    if Bit(s[i], 7) then
      if i + Count(s[i], 7) >= |s| then Err(BadDelta)
      else Ok((Copy(CopyOffset(s, i), CopyLen(CopyLenField(s, i))), i + Count(s[i], 7) + 1))
    else if s[i] == 0 || i + s[i] >= |s| then Err(BadDelta)
    else Ok((Insert(s[i + 1..i + s[i] + 1]), i + s[i] + 1))
  }

  /** Size 300; a copy of 7 bytes from offset 5; a copy without operands; two bytes to
      insert. */
  lemma FormatExamples(size: seq<Byte>, copy: seq<Byte>, bare: seq<Byte>, insert: seq<Byte>)
    requires size == [0xac, 0x02] && copy == [0x91, 5, 7] && bare == [0x80] && insert == [2, 9, 8]
    ensures SizeAt(size, 0, 0) == Ok((300, 1))
    ensures InstrAt(copy, 0) == Ok((Copy(5, 7), 3))
    ensures InstrAt(bare, 0) == Ok((Copy(0, 0x1_0000), 1))
    ensures InstrAt(insert, 0) == Ok((Insert([9, 8]), 3))
  {
    hide InstrAt, SizeAt;
    SizeExample(size);
    CopyExample(copy);
    BareExample(bare);
    InsertExample(insert);
  }

  lemma SizeExample(s: seq<Byte>)
    requires s == [0xac, 0x02]
    ensures SizeAt(s, 0, 0) == Ok((300, 1))
  {
    assert SizeAt(s, 1, 1) == Ok((2, 1));
  }

  lemma CopyExample(s: seq<Byte>)
    requires s == [0x91, 5, 7]
    ensures InstrAt(s, 0) == Ok((Copy(5, 7), 3))
  {
    hide Count, Bit;
    CountOf145();
  }

  lemma BareExample(s: seq<Byte>)
    requires s == [0x80]
    ensures InstrAt(s, 0) == Ok((Copy(0, 0x1_0000), 1))
  {
    hide Count, Bit;
    CountOf128();
  }

  lemma InsertExample(s: seq<Byte>)
    requires s == [2, 9, 8]
    ensures InstrAt(s, 0) == Ok((Insert([9, 8]), 3))
  {
    hide Count, CopyOffset, CopyLenField;
    assert s[1..3] == [9, 8];
  }

  lemma CountOf128()
    ensures Count(0x80, 7) == 0 && Bit(0x80, 7)
    ensures !Bit(0x80, 0) && !Bit(0x80, 1) && !Bit(0x80, 2) && !Bit(0x80, 3)
    ensures !Bit(0x80, 4) && !Bit(0x80, 5) && !Bit(0x80, 6)
  {
    assert Count(0x80, 3) == 0;
  }

  lemma CountOf145()
    ensures Count(0x91, 0) == 0 && Count(0x91, 4) == 1 && Count(0x91, 5) == 2 && Count(0x91, 7) == 2
    ensures Bit(0x91, 0) && Bit(0x91, 4) && Bit(0x91, 7)
    ensures !Bit(0x91, 1) && !Bit(0x91, 2) && !Bit(0x91, 3) && !Bit(0x91, 5) && !Bit(0x91, 6)
  {
    assert Count(0x91, 1) == 1 && Count(0x91, 2) == 1 && Count(0x91, 3) == 1 && Count(0x91, 6) == 2;
  }

  /** The instructions from index i to the end. */
  function InstrsAt(s: seq<Byte>, i: nat): Result<seq<Instr>>
    requires i <= |s|
    decreases |s| - i
  {
    if i == |s| then Ok([]) else
      match InstrAt(s, i)
      case Err(e) => Err(e)
      case Ok((instr, j)) =>
        match InstrsAt(s, j)
        case Err(e) => Err(e)
        case Ok(rest) => Ok([instr] + rest)
  }

  predicate InBase(base: seq<Byte>, instr: Instr) {
    instr.Copy? ==> instr.offset + instr.len <= |base|
  }

  /** The piece of output an instruction denotes. */
  function Piece(base: seq<Byte>, instr: Instr): seq<Byte>
    requires InBase(base, instr)
  {
    match instr
    case Copy(offset, len) => base[offset..offset + len]
    case Insert(data) => data
  }

  predicate AllInBase(base: seq<Byte>, instrs: seq<Instr>) {
    forall i | 0 <= i < |instrs| :: InBase(base, instrs[i])
  }

  lemma AllInBaseSplit(base: seq<Byte>, instrs: seq<Instr>)
    requires instrs != []
    ensures AllInBase(base, instrs) <==> InBase(base, instrs[0]) && AllInBase(base, instrs[1..])
  {
    if AllInBase(base, instrs[1..]) {
      forall i | 0 < i < |instrs|
        ensures InBase(base, instrs[i])
      {
        assert instrs[1..][i - 1] == instrs[i];
      }
    }
  }

  function Pieces(base: seq<Byte>, instrs: seq<Instr>): seq<Byte>
    requires AllInBase(base, instrs)
  {
    if instrs == [] then [] else Piece(base, instrs[0]) + Pieces(base, instrs[1..])
  }

  /** What the instructions from index i denote; an error when one is malformed or
      copies from beyond the base. */
  function Expand(base: seq<Byte>, s: seq<Byte>, i: nat): Result<seq<Byte>>
    requires i <= |s|
    decreases |s| - i
  {
    if i == |s| then Ok([]) else
      match InstrAt(s, i)
      case Err(e) => Err(e)
      case Ok((instr, j)) =>
        if !InBase(base, instr) then Err(BadDelta) else
        match Expand(base, s, j)
        case Err(e) => Err(e)
        case Ok(rest) => Ok(Piece(base, instr) + rest)
  }

  /** The output a whole stream denotes: it must be long enough, have at least one
      instruction, and be as long as it declares. */
  function Denoted(base: seq<Byte>, s: seq<Byte>): Result<seq<Byte>> {
    if |s| < STREAM_LENGTH_MIN then Err(BadDelta) else
      match SizesAt(s)
      case Err(e) => Err(e)
      case Ok((_, resultSize, j)) =>
        if j + 1 == |s| then Err(BadDelta) else
        match Expand(base, s, j + 1)
        case Err(e) => Err(e)
        case Ok(out) => if |out| == resultSize then Ok(out) else Err(BadDelta)
  }

  /** Expanding is parsing and then concatenating the pieces. */
  lemma {:induction false} ExpandIsPieces(base: seq<Byte>, s: seq<Byte>, i: nat, instrs: seq<Instr>)
    requires i <= |s| && InstrsAt(s, i) == Ok(instrs)
    ensures Expand(base, s, i).Ok? <==> AllInBase(base, instrs)
    ensures Expand(base, s, i).Ok? ==> Expand(base, s, i) == Ok(Pieces(base, instrs))
    decreases |s| - i
  {
    if i < |s| {
      var j := InstrAt(s, i).value.1;
      assert [instrs[0]] + instrs[1..] == instrs;
      ExpandIsPieces(base, s, j, instrs[1..]);
      AllInBaseSplit(base, instrs);
    }
  }

  // ------------------------------------------------------------ writing instructions

  /** A written instruction: the writer chooses which operand bytes to leave out,
      and may write the default length as zero. */
  datatype Coded = CodedCopy(op: Byte, offset: nat, field: nat) | CodedInsert(data: seq<Byte>)

  function Means(c: Coded): Instr {
    match c
    case CodedCopy(_, offset, field) => Copy(offset, CopyLen(field))
    case CodedInsert(data) => Insert(data)
  }

  /** The operand bytes in the order they are written. */
  function OperandBytes(offset: nat, field: nat): (b: seq<Byte>)
    ensures |b| == 7
  {
    [offset % 0x100, offset / 0x100 % 0x100, offset / 0x1_0000 % 0x100, offset / 0x100_0000 % 0x100,
     field % 0x100, field / 0x100 % 0x100, field / 0x1_0000 % 0x100]
  }

  /** Only zero bytes are left out, and inserts fit the length byte. */
  predicate Codable(c: Coded) {
    match c
    case CodedCopy(op, offset, field) =>
      && Bit(op, 7) && offset < 0x1_0000_0000 && field < 0x100_0000
      && forall k | 0 <= k < 7 :: !Bit(op, k) ==> OperandBytes(offset, field)[k] == 0
    case CodedInsert(data) => 0 < |data| < 128
  }

  /** The present ones of the first k operand bytes. */
  function Present(op: Byte, b: seq<Byte>, k: nat): (s: seq<Byte>)
    requires |b| == 7 && k <= 7
    ensures |s| == Count(op, k)
  {
    if k == 0 then [] else Present(op, b, k - 1) + if Bit(op, k - 1) then [b[k - 1]] else []
  }

  function EncodeInstr(c: Coded): (s: seq<Byte>)
    requires Codable(c)
    ensures s != []
  {
    match c
    case CodedCopy(op, offset, field) => [op] + Present(op, OperandBytes(offset, field), 7)
    case CodedInsert(data) => [|data|] + data
  }

  predicate AllCodable(cs: seq<Coded>) {
    forall i | 0 <= i < |cs| :: Codable(cs[i])
  }

  function MeansAll(cs: seq<Coded>): (instrs: seq<Instr>)
    ensures |instrs| == |cs|
  {
    if cs == [] then [] else [Means(cs[0])] + MeansAll(cs[1..])
  }

  function EncodeInstrs(cs: seq<Coded>): seq<Byte>
    requires AllCodable(cs)
  {
    if cs == [] then [] else EncodeInstr(cs[0]) + EncodeInstrs(cs[1..])
  }

  lemma {:induction false} PresentAt(op: Byte, b: seq<Byte>, j: nat, k: nat)
    requires |b| == 7 && j < k <= 7 && Bit(op, j)
    ensures Count(op, j) < Count(op, k) && Present(op, b, k)[Count(op, j)] == b[j]
  {
    CountGrows(op, j, k);
    if j < k - 1 {
      PresentAt(op, b, j, k - 1);
    }
  }

  lemma JoinBytes(offset: nat, field: nat)
    requires offset < 0x1_0000_0000 && field < 0x100_0000
    ensures var b := OperandBytes(offset, field);
            && b[0] as int + 0x100 * b[1] as int + 0x1_0000 * b[2] as int + 0x100_0000 * b[3] as int == offset
            && b[4] as int + 0x100 * b[5] as int + 0x1_0000 * b[6] as int == field
  {
    assert offset == offset % 0x100 + 0x100 * (offset / 0x100);
    assert offset / 0x100 == offset / 0x100 % 0x100 + 0x100 * (offset / 0x1_0000);
    assert offset / 0x1_0000 == offset / 0x1_0000 % 0x100 + 0x100 * (offset / 0x100_0000);
    assert field / 0x100 == field / 0x100 % 0x100 + 0x100 * (field / 0x1_0000);
  }

  /** A written instruction reads back, wherever it stands. */
  lemma InstrBack(s: seq<Byte>, i: nat, c: Coded)
    requires Codable(c) && StandsAt(s, i, EncodeInstr(c)) && i < |s|
    ensures InstrAt(s, i) == Ok((Means(c), i + |EncodeInstr(c)|))
  {
    assert s[i] == EncodeInstr(c)[0];
    match c
    case CodedCopy(op, offset, field) =>
      CopyBack(s, i, op, offset, field);
    case CodedInsert(data) =>
      SmallHasNoCopyBit(s[i]);
      forall k | 0 <= k < |data|
        ensures s[i + 1..i + |data| + 1][k] == data[k]
      {
        assert s[i + (1 + k)] == EncodeInstr(c)[1 + k];
      }
      assert s[i + 1..i + |data| + 1] == data;
  }

  lemma SmallHasNoCopyBit(b: Byte)
    ensures Bit(b, 7) <==> b >= 128
  {
  }

  lemma CopyBack(s: seq<Byte>, i: nat, op: Byte, offset: nat, field: nat)
    requires Codable(CodedCopy(op, offset, field)) && StandsAt(s, i, EncodeInstr(CodedCopy(op, offset, field)))
             && i < |s|
    ensures s[i] == op && i + Count(op, 7) < |s| && CopyOffset(s, i) == offset && CopyLenField(s, i) == field
  {
    hide Bit, Present, OperandBytes, Count;
    var b := OperandBytes(offset, field);
    var e := EncodeInstr(CodedCopy(op, offset, field));
    assert s[i] == e[0] && |e| == Count(op, 7) + 1;
    forall k | 0 <= k < 7
      ensures Operand(s, i, k) == b[k]
    {
      if Bit(op, k) {
        PresentAt(op, b, k, 7);
        assert s[i + (Count(op, k) + 1)] == e[Count(op, k) + 1];
      }
    }
    JoinBytes(offset, field);
  }

  /** Decoding undoes encoding, for any list of instructions and any way of
      writing them. */
  lemma {:induction false} InstrsBack(s: seq<Byte>, i: nat, cs: seq<Coded>)
    requires AllCodable(cs) && i <= |s| && s[i..] == EncodeInstrs(cs)
    ensures InstrsAt(s, i) == Ok(MeansAll(cs))
    decreases |cs|
  {
    hide Codable, EncodeInstr, Means, InstrAt;
    if cs != [] {
      var e := EncodeInstr(cs[0]);
      assert s[i..] == e + EncodeInstrs(cs[1..]);
      assert |s| - i == |e + EncodeInstrs(cs[1..])|;
      forall k | 0 <= k < |e|
        ensures s[i + k] == e[k]
      {
        assert s[i..][k] == e[k];
      }
      InstrBack(s, i, cs[0]);
      assert s[i + |e|..] == s[i..][|e|..] == EncodeInstrs(cs[1..]);
      InstrsBack(s, i + |e|, cs[1..]);
    }
  }

  /** Every instruction that parses is the encoding of some written one. */
  lemma InstrIsCoded(s: seq<Byte>, i: nat) returns (c: Coded)
    requires i < |s| && InstrAt(s, i).Ok?
    ensures Codable(c) && Means(c) == InstrAt(s, i).value.0
    ensures EncodeInstr(c) == s[i..InstrAt(s, i).value.1]
  {
    SmallHasNoCopyBit(s[i]);
    if Bit(s[i], 7) {
      c := CodedCopy(s[i], CopyOffset(s, i), CopyLenField(s, i));
      SplitOperands(s, i);
      PresentIs(s, i, 7);
      assert [s[i]] + s[i + 1..i + 1 + Count(s[i], 7)] == s[i..i + 1 + Count(s[i], 7)];
    } else {
      c := CodedInsert(s[i + 1..i + s[i] + 1]);
      assert [s[i]] + s[i + 1..i + s[i] + 1] == s[i..i + s[i] + 1];
    }
  }

  lemma SplitBytes(b0: Byte, b1: Byte, b2: Byte, b3: Byte)
    ensures var n: nat := b0 as int + 0x100 * b1 as int + 0x1_0000 * b2 as int + 0x100_0000 * b3 as int;
            && n < 0x1_0000_0000 && n % 0x100 == b0 && n / 0x100 % 0x100 == b1
            && n / 0x1_0000 % 0x100 == b2 && n / 0x100_0000 % 0x100 == b3
  {
    var n3: nat := b3;
    var n2: nat := b2 as int + 0x100 * n3;
    var n1: nat := b1 as int + 0x100 * n2;
    ShiftOut(b3, 0);
    ShiftOut(b2, n3);
    ShiftOut(b1, n2);
    ShiftOut(b0, n1);
  }

  lemma ShiftOut(b: Byte, rest: nat)
    ensures var n: nat := b as int + 0x100 * rest; n % 0x100 == b && n / 0x100 == rest
  {
  }

  lemma SplitOperands(s: seq<Byte>, i: nat)
    requires i < |s| && i + Count(s[i], 7) < |s|
    ensures CopyOffset(s, i) < 0x1_0000_0000 && CopyLenField(s, i) < 0x100_0000
    ensures forall k | 0 <= k < 7 :: OperandBytes(CopyOffset(s, i), CopyLenField(s, i))[k] == Operand(s, i, k)
  {
    hide Operand, Bit;
    SplitBytes(Operand(s, i, 0), Operand(s, i, 1), Operand(s, i, 2), Operand(s, i, 3));
    SplitBytes(Operand(s, i, 4), Operand(s, i, 5), Operand(s, i, 6), 0);
  }

  lemma {:induction false} PresentIs(s: seq<Byte>, i: nat, k: nat)
    requires i < |s| && i + Count(s[i], 7) < |s| && k <= 7
    ensures Count(s[i], k) <= Count(s[i], 7)
    ensures Present(s[i], OperandBytes(CopyOffset(s, i), CopyLenField(s, i)), k) == s[i + 1..i + 1 + Count(s[i], k)]
  {
    hide OperandBytes, CopyOffset, CopyLenField, Bit;
    CountGrows(s[i], k, 7);
    if k > 0 {
      PresentIs(s, i, k - 1);
      SplitOperands(s, i);
      var b := OperandBytes(CopyOffset(s, i), CopyLenField(s, i));
      if Bit(s[i], k - 1) {
        assert b[k - 1] == Operand(s, i, k - 1) == s[i + Count(s[i], k - 1) + 1];
      }
    }
  }

  /** A stream written from its sizes and any instructions denotes the pieces of
      those instructions one after the other, exactly when there is an
      instruction, all copies lie within the base and the declared size is right. */
  lemma StreamDenotes(base: seq<Byte>, baseSize: nat, resultSize: nat, cs: seq<Coded>)
    requires AllCodable(cs) && baseSize < U64 && resultSize < U64
    ensures var s := EncodeSize(baseSize) + EncodeSize(resultSize) + EncodeInstrs(cs);
            var instrs := MeansAll(cs);
            && (Denoted(base, s).Ok? <==>
                  |s| >= STREAM_LENGTH_MIN && cs != [] && AllInBase(base, instrs)
                    && |Pieces(base, instrs)| == resultSize)
            && (Denoted(base, s).Ok? ==> Denoted(base, s) == Ok(Pieces(base, instrs)))
  {
    hide AllInBase, Codable, Count, EncodeSize, Expand, InstrsAt, MeansAll, Pieces, Present, SizeAt;
    var a, b, e := EncodeSize(baseSize), EncodeSize(resultSize), EncodeInstrs(cs);
    var s := a + b + e;
    SizesBack(s, baseSize, resultSize);
    assert s[|a| + |b|..] == e;
    InstrsBack(s, |a| + |b|, cs);
    ExpandIsPieces(base, s, |a| + |b|, MeansAll(cs));
    assert cs == [] <==> e == [];
  }

  lemma SizesBack(s: seq<Byte>, baseSize: nat, resultSize: nat)
    requires baseSize < U64 && resultSize < U64 && EncodeSize(baseSize) + EncodeSize(resultSize) <= s
    ensures SizesAt(s) == Ok((baseSize, resultSize, |EncodeSize(baseSize)| + |EncodeSize(resultSize)| - 1))
  {
    hide EncodeSize, SizeAt, Pow128;
    var a, b := EncodeSize(baseSize), EncodeSize(resultSize);
    TenBytes();
    SizeLength(baseSize, 10);
    SizeLength(resultSize, 10);
    assert StandsAt(s, 0, a) && StandsAt(s, |a|, b) by {
      forall k | 0 <= k < |b|
        ensures s[|a| + k] == b[k]
      {
        assert (a + b)[|a| + k] == b[k];
      }
    }
    SizeBack(s, 0, 0, baseSize);
    SizeBack(s, |a|, 0, resultSize);
  }

  lemma TenBytes()
    ensures Pow128(10) >= U64
  {
    assert Pow128(2) == 128 * Pow128(1);
    PowOne();
    assert Pow128(4) == 128 * Pow128(3) && Pow128(3) == 128 * Pow128(2);
    assert Pow128(6) == 128 * Pow128(5) && Pow128(5) == 128 * Pow128(4);
    assert Pow128(8) == 128 * Pow128(7) && Pow128(7) == 128 * Pow128(6);
    assert Pow128(10) == 128 * Pow128(9) && Pow128(9) == 128 * Pow128(8);
  }
}
