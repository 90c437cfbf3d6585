/** What an imsg byte stream means (compat/imsg.h and the framing rules of
  compat/imsg.c), and when descriptors travelling beside it are on time.
*/
module ImsgCodec {
  import opened Bytes

  const IMSG_HEADER_SIZE: nat := 16
  const MAX_IMSGSIZE: nat := 16384
  const IBUF_READ_SIZE: nat := 65535
  const U16: nat := 0x1_0000
  const U32: nat := 0x1_0000_0000
  const NO_FD: int := -1

  datatype Message = Message(typ: nat, peerid: nat, pid: nat, fd: int, data: seq<Byte>)

  datatype Header = Header(typ: nat, len: nat, flags: nat, peerid: nat, pid: nat)

  predicate Sendable(m: Message) {
    m.typ < U32 && m.peerid < U32 && m.pid < U32 && IMSG_HEADER_SIZE + |m.data| <= MAX_IMSGSIZE
  }

  // ------------------------------------------------------------ integers in memory order

  function Bytes16(x: nat): (b: seq<Byte>)
    requires x < U16
  {
    [x % 256, x / 256]
  }

  function Bytes32(x: nat): (b: seq<Byte>)
    requires x < U32
  {
    Bytes16(x % U16) + Bytes16(x / U16)
  }

  function Read16(b: seq<Byte>): (x: nat)
    requires |b| == 2
    ensures x < U16
  {
    b[0] as int + 256 * (b[1] as int)
  }

  function Read32(b: seq<Byte>): (x: nat)
    requires |b| == 4
    ensures x < U32
  {
    Read16(b[..2]) + U16 * Read16(b[2..])
  }

  lemma Read16Back(x: nat)
    requires x < U16
    ensures Read16(Bytes16(x)) == x
  {
  }

  lemma Read32Back(x: nat)
    requires x < U32
    ensures |Bytes32(x)| == 4 && Read32(Bytes32(x)) == x
  {
    var lo, hi := Bytes16(x % U16), Bytes16(x / U16);
    assert (lo + hi)[..2] == lo && (lo + hi)[2..] == hi;
    Read16Back(x % U16);
    Read16Back(x / U16);
  }

  // ------------------------------------------------------------ headers

  predicate HeaderFits(h: Header) {
    h.typ < U32 && h.len < U16 && h.flags < U16 && h.peerid < U32 && h.pid < U32
  }

  function HeaderBytes(h: Header): (b: seq<Byte>)
    requires HeaderFits(h)
    ensures |b| == IMSG_HEADER_SIZE
  {
    Bytes32(h.typ) + Bytes16(h.len) + Bytes16(h.flags) + Bytes32(h.peerid) + Bytes32(h.pid)
  }

  function ReadHeader(b: seq<Byte>): Header
    requires |b| >= IMSG_HEADER_SIZE
  {
    Header(Read32(b[..4]), Read16(b[4..6]), Read16(b[6..8]), Read32(b[8..12]), Read32(b[12..16]))
  }

  lemma ReadHeaderBack(h: Header, rest: seq<Byte>)
    requires HeaderFits(h)
    ensures ReadHeader(HeaderBytes(h) + rest) == h
  {
    var t, l, f, p, i := Bytes32(h.typ), Bytes16(h.len), Bytes16(h.flags), Bytes32(h.peerid), Bytes32(h.pid);
    var b := t + l + f + p + i + rest;
    hide Read16, Read32, Bytes32;
    Read32Back(h.typ);
    Read32Back(h.peerid);
    Read32Back(h.pid);
    Read16Back(h.len);
    Read16Back(h.flags);
    assert |l| == 2 && |f| == 2;
    assert b[..4] == t && b[4..6] == l && b[6..8] == f && b[8..12] == p && b[12..16] == i;
  }

  // ------------------------------------------------------------ messages

  function HeaderOf(m: Message): Header
    requires Sendable(m)
  {
    Header(m.typ, IMSG_HEADER_SIZE + |m.data|, if m.fd != NO_FD then 1 else 0, m.peerid, m.pid)
  }

  function Encode(m: Message): (b: seq<Byte>)
    requires Sendable(m)
    ensures |b| == IMSG_HEADER_SIZE + |m.data| && b != []
  {
    HeaderBytes(HeaderOf(m)) + m.data
  }

  /** The header's fields, in their order and widths, and the data: type 1, length 17, the
      flag for a descriptor, peer 2, pid 3. */
  lemma MessageLayout(m: Message)
    requires m == Message(1, 2, 3, 5, [7])
    ensures Sendable(m) && Encode(m) == [1, 0, 0, 0] + [17, 0] + [1, 0] + [2, 0, 0, 0] + [3, 0, 0, 0] + [7]
    ensures Bytes32(0x0403_0201) == [1, 2, 3, 4]
  {
  }

  predicate AllSendable(ms: seq<Message>) {
    forall i | 0 <= i < |ms| :: Sendable(ms[i])
  }

  function EncodeAll(ms: seq<Message>): seq<Byte>
    requires AllSendable(ms)
  {
    if ms == [] then [] else Encode(ms[0]) + EncodeAll(ms[1..])
  }

  /** The descriptors of the messages that carry one, in order. */
  function Fds(ms: seq<Message>): seq<int> {
    if ms == [] then [] else (if ms[0].fd != NO_FD then [ms[0].fd] else []) + Fds(ms[1..])
  }

  datatype Decoded = Incomplete | Malformed | Decoded(m: Message, rest: seq<Byte>, fds: seq<int>)

  /** One message from the front of a byte stream, its descriptor from the front
      of a descriptor queue. */
  function DecodeOne(b: seq<Byte>, fds: seq<int>): Decoded {
    if |b| < IMSG_HEADER_SIZE then Incomplete
    else
      var h := ReadHeader(b);
      if h.len < IMSG_HEADER_SIZE || h.len > MAX_IMSGSIZE then Malformed
      else if h.len > |b| then Incomplete
      else
        var hasFd := h.flags % 2 == 1;
        var fd := if hasFd && fds != [] then fds[0] else NO_FD;
        Decoded(Message(h.typ, h.peerid, h.pid, fd, b[IMSG_HEADER_SIZE..h.len]),
                b[h.len..], if hasFd && fds != [] then fds[1..] else fds)
  }

  /** All messages a complete stream holds. */
  function DecodeAll(b: seq<Byte>, fds: seq<int>): seq<Message>
    decreases |b|
  {
    match DecodeOne(b, fds)
    case Decoded(m, rest, fds') => [m] + DecodeAll(rest, fds')
    case _ => []
  }

  /** A message at the front of a stream, with its descriptor at the front of the
      queue, is what comes out. */
  lemma DecodeFirst(m: Message, rest: seq<Byte>, fds: seq<int>)
    requires Sendable(m) && (m.fd != NO_FD ==> fds != [] && fds[0] == m.fd)
    ensures DecodeOne(Encode(m) + rest, fds) == Decoded(m, rest, if m.fd != NO_FD then fds[1..] else fds)
  {
    var b := Encode(m) + rest;
    assert b == HeaderBytes(HeaderOf(m)) + (m.data + rest);
    ReadHeaderBack(HeaderOf(m), m.data + rest);
    hide ReadHeader, HeaderBytes;
    assert b[IMSG_HEADER_SIZE..IMSG_HEADER_SIZE + |m.data|] == m.data;
    assert b[IMSG_HEADER_SIZE + |m.data|..] == rest;
  }

  /** Decoding undoes encoding, for any list of messages. */
  lemma {:induction false} DecodeAllBack(ms: seq<Message>)
    requires AllSendable(ms)
    ensures DecodeAll(EncodeAll(ms), Fds(ms)) == ms
  {
    hide ReadHeader, HeaderBytes, Encode;
    if ms != [] {
      var fds := Fds(ms);
      DecodeFirst(ms[0], EncodeAll(ms[1..]), fds);
      assert (if ms[0].fd != NO_FD then fds[1..] else fds) == Fds(ms[1..]);
      DecodeAllBack(ms[1..]);
      assert [ms[0]] + ms[1..] == ms;
    } else {
      assert DecodeOne([], []) == Incomplete;
    }
  }

  /** A strict part of a message does not decode, and it is shorter than the
      largest message. */
  lemma DecodePart(m: Message, b: seq<Byte>, fds: seq<int>)
    requires Sendable(m) && |b| < |Encode(m)| && b == Encode(m)[..|b|]
    ensures DecodeOne(b, fds) == Incomplete && |b| < MAX_IMSGSIZE
  {
    if |b| >= IMSG_HEADER_SIZE {
      ReadHeaderBack(HeaderOf(m), m.data[..|b| - IMSG_HEADER_SIZE]);
      assert b == HeaderBytes(HeaderOf(m)) + m.data[..|b| - IMSG_HEADER_SIZE];
    }
  }

  lemma {:induction false} EncodeAllConcat(ms: seq<Message>, m: Message)
    requires AllSendable(ms) && Sendable(m)
    ensures EncodeAll(ms + [m]) == EncodeAll(ms) + Encode(m)
    ensures Fds(ms + [m]) == Fds(ms) + if m.fd != NO_FD then [m.fd] else []
  {
    hide Encode, Sendable;
    if ms == [] {
      assert [m][1..] == [] && ms + [m] == [m];
      assert EncodeAll([m]) == Encode(m) + [];
    } else {
      EncodeAllConcat(ms[1..], m);
      assert (ms + [m])[1..] == ms[1..] + [m];
      var fd := if ms[0].fd != NO_FD then [ms[0].fd] else [];
      assert Encode(ms[0]) + (EncodeAll(ms[1..]) + Encode(m)) == Encode(ms[0]) + EncodeAll(ms[1..]) + Encode(m);
      assert fd + (Fds(ms[1..]) + if m.fd != NO_FD then [m.fd] else []) == fd + Fds(ms[1..]) + if m.fd != NO_FD
             then [m.fd] else [];
    }
  }

  // ------------------------------------------------------------ descriptors beside bytes

  /** A byte on its way, and the descriptor (or NO_FD) that arrives with it. */
  datatype Cell = Cell(byte: Byte, fd: int)

  function CellBytes(cells: seq<Cell>): seq<Byte> {
    seq(|cells|, i requires 0 <= i < |cells| => cells[i].byte)
  }

  function Plain(b: seq<Byte>): seq<Cell> {
    seq(|b|, i requires 0 <= i < |b| => Cell(b[i], NO_FD))
  }

  /** Bytes whose first one brings fd. */
  function Tagged(b: seq<Byte>, fd: int): seq<Cell> {
    seq(|b|, i requires 0 <= i < |b| => Cell(b[i], if i == 0 then fd else NO_FD))
  }

  /** The descriptors that arrive with these cells, in order. */
  function Marks(cells: seq<Cell>): seq<int> {
    if cells == [] then [] else
      Marks(cells[..|cells| - 1]) + if cells[|cells| - 1].fd != NO_FD then [cells[|cells| - 1].fd] else []
  }

  lemma {:induction false} MarksConcat(a: seq<Cell>, b: seq<Cell>)
    ensures Marks(a + b) == Marks(a) + Marks(b)
    decreases |b|
  {
    if b == [] {
      assert a + b == a;
    } else {
      MarksConcat(a, b[..|b| - 1]);
      assert (a + b)[..|a + b| - 1] == a + b[..|b| - 1];
    }
  }

  lemma {:induction false} MarksNone(cells: seq<Cell>)
    requires forall i | 0 <= i < |cells| :: cells[i].fd == NO_FD
    ensures Marks(cells) == []
    decreases |cells|
  {
    if cells != [] {
      MarksNone(cells[..|cells| - 1]);
    }
  }

  lemma MarksTagged(b: seq<Byte>, fd: int)
    requires b != []
    ensures Marks(Tagged(b, fd)) == if fd != NO_FD then [fd] else []
  {
    var t := Tagged(b, fd);
    assert t == [t[0]] + t[1..];
    MarksConcat([t[0]], t[1..]);
    MarksNone(t[1..]);
    assert [t[0]][..0] == [];
  }

  /** `ready` holds the descriptors received and not yet handed out, `cells` the
      bytes received and not yet decoded followed by those still to come:
      together they are exactly the pending messages, and each message's
      descriptor arrives no later than its first byte. */
  ghost predicate InFlight(ready: seq<int>, cells: seq<Cell>, pending: seq<Message>) {
    && AllSendable(pending)
    && CellBytes(cells) == EncodeAll(pending)
    && ready + Marks(cells) == Fds(pending)
    && OnTime(ready, cells, pending)
  }

  ghost predicate OnTime(ready: seq<int>, cells: seq<Cell>, pending: seq<Message>)
    requires AllSendable(pending)
  {
    forall i | 0 <= i < |pending| && pending[i].fd != NO_FD :: OneOnTime(ready, cells, pending, i)
  }

  ghost predicate OneOnTime(ready: seq<int>, cells: seq<Cell>, pending: seq<Message>, i: nat)
    requires AllSendable(pending) && i < |pending|
  {
    |ready| + MarksUpTo(cells, |EncodeAll(pending[..i])| + 1) >= |Fds(pending[..i + 1])|
  }

  function MarksUpTo(cells: seq<Cell>, k: nat): nat {
    if k <= |cells| then |Marks(cells[..k])| else |Marks(cells)|
  }

  /** The same descriptors, none of them later. */
  ghost predicate NoLater(ready: seq<int>, cells: seq<Cell>, ready': seq<int>, cells': seq<Cell>) {
    && CellBytes(cells') == CellBytes(cells)
    && ready' + Marks(cells') == ready + Marks(cells)
    && forall k: nat :: |ready'| + MarksUpTo(cells', k) >= |ready| + MarksUpTo(cells, k)
  }

  lemma NoLaterInFlight(ready: seq<int>, cells: seq<Cell>, ready': seq<int>, cells': seq<Cell>, pending: seq<Message>)
    requires InFlight(ready, cells, pending) && NoLater(ready, cells, ready', cells')
    ensures InFlight(ready', cells', pending)
  {
    hide EncodeAll, Marks, MarksUpTo, Fds, CellBytes;
    forall i | 0 <= i < |pending| && pending[i].fd != NO_FD
      ensures OneOnTime(ready', cells', pending, i)
    {
      assert OneOnTime(ready, cells, pending, i);
    }
  }

  lemma NothingInFlight()
    ensures InFlight([], [], [])
  {
  }

  /** A new message joins at the end, its descriptor at its first byte. */
  lemma ComposeInFlight(ready: seq<int>, cells: seq<Cell>, pending: seq<Message>, m: Message)
    requires InFlight(ready, cells, pending) && Sendable(m)
    ensures InFlight(ready, cells + Tagged(Encode(m), m.fd), pending + [m])
  {
    hide CellBytes, EncodeAll, Fds, Marks, Tagged;
    var new_, all := Tagged(Encode(m), m.fd), pending + [m];
    EncodeAllConcat(pending, m);
    MarksConcat(cells, new_);
    MarksTagged(Encode(m), m.fd);
    TaggedBytes(cells, Encode(m), m.fd);
    assert ready + (Marks(cells) + Marks(new_)) == ready + Marks(cells) + Marks(new_);
    forall i | 0 <= i < |all| && all[i].fd != NO_FD
      ensures OneOnTime(ready, cells + new_, all, i)
    {
      if i < |pending| {
        StillOnTime(ready, cells, new_, pending, m, i);
      } else {
        LastOnTime(ready, cells, pending, m);
      }
    }
  }

  lemma TaggedBytes(cells: seq<Cell>, b: seq<Byte>, fd: int)
    ensures CellBytes(cells + Tagged(b, fd)) == CellBytes(cells) + b
  {
  }

  lemma StillOnTime(ready: seq<int>, cells: seq<Cell>, more: seq<Cell>, pending: seq<Message>, m: Message, i: nat)
    requires AllSendable(pending) && Sendable(m) && i < |pending| && OneOnTime(ready, cells, pending, i)
    ensures OneOnTime(ready, cells + more, pending + [m], i)
  {
    hide EncodeAll, Marks, MarksUpTo, Fds;
    assert (pending + [m])[..i] == pending[..i] && (pending + [m])[..i + 1] == pending[..i + 1];
    MarksUpToConcat(cells, more, |EncodeAll(pending[..i])| + 1);
  }

  lemma LastOnTime(ready: seq<int>, cells: seq<Cell>, pending: seq<Message>, m: Message)
    requires AllSendable(pending) && Sendable(m) && m.fd != NO_FD
    requires CellBytes(cells) == EncodeAll(pending) && ready + Marks(cells) == Fds(pending)
    ensures OneOnTime(ready, cells + Tagged(Encode(m), m.fd), pending + [m], |pending|)
  {
    hide EncodeAll, Marks, Fds, Encode;
    var all, new_ := pending + [m], Tagged(Encode(m), m.fd);
    assert all[..|pending| + 1] == all && all[..|pending|] == pending;
    EncodeAllConcat(pending, m);
    assert |cells| == |EncodeAll(pending)|;
    assert (cells + new_)[..|cells| + 1] == cells + Tagged(Encode(m)[..1], m.fd);
    MarksConcat(cells, Tagged(Encode(m)[..1], m.fd));
    MarksTagged(Encode(m)[..1], m.fd);
    assert |ready + Marks(cells)| == |Fds(pending)|;
  }

  lemma MarksUpToConcat(cells: seq<Cell>, more: seq<Cell>, k: nat)
    ensures MarksUpTo(cells + more, k) >= MarksUpTo(cells, k)
  {
    if k <= |cells| {
      assert (cells + more)[..k] == cells[..k];
    } else if k <= |cells + more| {
      assert (cells + more)[..k] == cells + more[..k - |cells|];
      MarksConcat(cells, more[..k - |cells|]);
    } else {
      MarksConcat(cells, more);
    }
  }

  /** Bytes are received, and their descriptors with them. */
  lemma ReceiveNoLater(ready: seq<int>, had: seq<Byte>, got: seq<Cell>, rest: seq<Cell>)
    ensures NoLater(ready, Plain(had) + got + rest, ready + Marks(got), Plain(had + CellBytes(got)) + rest)
  {
    hide CellBytes, Marks, Plain;
    ReceivedSame(ready, had, got, rest);
    var cells, cells' := Plain(had) + got + rest, Plain(had + CellBytes(got)) + rest;
    forall k: nat
      ensures |ready + Marks(got)| + MarksUpTo(cells', k) >= |ready| + MarksUpTo(cells, k)
    {
      ReceivedUpTo(had, got, rest, k);
    }
  }

  lemma ReceivedSame(ready: seq<int>, had: seq<Byte>, got: seq<Cell>, rest: seq<Cell>)
    ensures CellBytes(Plain(had + CellBytes(got)) + rest) == CellBytes(Plain(had) + got + rest)
    ensures ready + Marks(got) + Marks(Plain(had + CellBytes(got)) + rest) == ready + Marks(Plain(had) + got + rest)
  {
    hide Marks;
    MarksNone(Plain(had + CellBytes(got)));
    MarksNone(Plain(had));
    MarksConcat(Plain(had + CellBytes(got)), rest);
    MarksConcat(Plain(had) + got, rest);
    MarksConcat(Plain(had), got);
    assert ready + Marks(got) + Marks(rest) == ready + (Marks(got) + Marks(rest));
  }

  lemma ReceivedUpTo(had: seq<Byte>, got: seq<Cell>, rest: seq<Cell>, k: nat)
    ensures |Marks(got)| + MarksUpTo(Plain(had + CellBytes(got)) + rest, k) >= MarksUpTo(Plain(had) + got + rest, k)
  {
    hide Marks;
    var plain, mixed := Plain(had + CellBytes(got)), Plain(had) + got;
    var n := |had| + |got|;
    assert |plain| == n == |mixed|;
    MarksNone(plain);
    MarksNone(Plain(had));
    MarksConcat(Plain(had), got);
    hide *;
    SameUpTo(plain, mixed, rest, k);
  }

  lemma SameUpTo(plain: seq<Cell>, mixed: seq<Cell>, rest: seq<Cell>, k: nat)
    requires |plain| == |mixed| && Marks(plain) == []
    ensures |Marks(mixed)| + MarksUpTo(plain + rest, k) >= MarksUpTo(mixed + rest, k)
  {
    hide Marks;
    var n := |mixed|;
    if k < n {
      assert (mixed + rest)[..k] == mixed[..k];
      assert mixed == mixed[..k] + mixed[k..];
      MarksConcat(mixed[..k], mixed[k..]);
    } else {
      var part := if k <= n + |rest| then rest[..k - n] else rest;
      assert (if k <= n + |rest| then (mixed + rest)[..k] else mixed + rest) == mixed + part;
      assert (if k <= n + |rest| then (plain + rest)[..k] else plain + rest) == plain + part;
      MarksConcat(mixed, part);
      MarksConcat(plain, part);
    }
  }

  /** A descriptor may travel with an earlier byte than it was queued with, when
      nothing between carries one. */
  lemma HasteNoLater(ready: seq<int>, before: seq<Cell>, b: seq<Byte>, c: seq<Byte>, after: seq<Cell>, fd: int)
    requires b != [] && c != []
    ensures NoLater(ready, before + Plain(b) + Tagged(c, fd) + after, ready, before + Tagged(b, fd) + Plain(c) + after)
  {
    var cells := before + Plain(b) + Tagged(c, fd) + after;
    var cells' := before + Tagged(b, fd) + Plain(c) + after;
    hide Marks;
    var old_, new_ := Plain(b) + Tagged(c, fd), Tagged(b, fd) + Plain(c);
    assert cells == before + (old_ + after) && cells' == before + (new_ + after);
    MarksOfMoved(b, c, fd);
    MarksConcat(before, old_ + after);
    MarksConcat(before, new_ + after);
    MarksConcat(old_, after);
    MarksConcat(new_, after);
    forall k: nat
      ensures MarksUpTo(cells', k) >= MarksUpTo(cells, k)
    {
      MovedUpTo(before, b, c, after, fd, k);
    }
  }

  lemma MarksOfMoved(b: seq<Byte>, c: seq<Byte>, fd: int)
    requires b != [] && c != []
    ensures Marks(Plain(b) + Tagged(c, fd)) == Marks(Tagged(b, fd) + Plain(c)) == if fd != NO_FD then [fd] else []
  {
    hide Marks;
    MarksConcat(Plain(b), Tagged(c, fd));
    MarksConcat(Tagged(b, fd), Plain(c));
    MarksTagged(b, fd);
    MarksTagged(c, fd);
    MarksNone(Plain(b));
    MarksNone(Plain(c));
  }

  lemma MovedUpTo(before: seq<Cell>, b: seq<Byte>, c: seq<Byte>, after: seq<Cell>, fd: int, k: nat)
    requires b != [] && c != []
    ensures MarksUpTo(before + Tagged(b, fd) + Plain(c) + after,
                      k) >= MarksUpTo(before + Plain(b) + Tagged(c, fd) + after, k)
  {
    var cells := before + Plain(b) + Tagged(c, fd) + after;
    var cells' := before + Tagged(b, fd) + Plain(c) + after;
    var old_, new_ := Plain(b) + Tagged(c, fd), Tagged(b, fd) + Plain(c);
    var n := |before| + |b| + |c|;
    hide Marks;
    if k <= |before| {
      assert cells[..k] == before[..k] == cells'[..k];
    } else if k <= |before| + |b| {
      var j := k - |before|;
      assert cells[..k] == before + Plain(b[..j]) && cells'[..k] == before + Tagged(b[..j], fd);
      MarksConcat(before, Plain(b[..j]));
      MarksConcat(before, Tagged(b[..j], fd));
      MarksNone(Plain(b[..j]));
    } else if k <= n {
      var j := k - |before| - |b|;
      assert cells[..k] == before + (Plain(b) + Tagged(c[..j], fd))
             && cells'[..k] == before + (Tagged(b, fd) + Plain(c[..j]));
      MarksOfMoved(b, c[..j], fd);
      MarksConcat(before, Plain(b) + Tagged(c[..j], fd));
      MarksConcat(before, Tagged(b, fd) + Plain(c[..j]));
    } else {
      var rest := if k <= |cells| then after[..k - n] else after;
      MarksOfMoved(b, c, fd);
      assert (if k <= |cells| then cells[..k] else cells) == before + (old_ + rest);
      assert (if k <= |cells| then cells'[..k] else cells') == before + (new_ + rest);
      MarksConcat(before, old_ + rest);
      MarksConcat(before, new_ + rest);
      MarksConcat(old_, rest);
      MarksConcat(new_, rest);
    }
  }

  /** When the first pending message has arrived in full, its descriptor is first
      in the queue; the rest stays in flight. */
  lemma TakeInFlight(ready: seq<int>, got: seq<Byte>, rest: seq<Cell>, pending: seq<Message>)
    requires InFlight(ready, Plain(got) + rest, pending)
    requires pending != [] && |Encode(pending[0])| <= |got|
    ensures var m := pending[0]; var n := |Encode(m)|;
            && got == Encode(m) + got[n..]
            && (m.fd != NO_FD ==> ready != [] && ready[0] == m.fd)
            && InFlight(if m.fd != NO_FD then ready[1..] else ready, Plain(got[n..]) + rest, pending[1..])
  {
    hide CellBytes, EncodeAll, Fds, Marks, Plain;
    var m, ms, n := pending[0], pending[1..], |Encode(pending[0])|;
    var cells, cells' := Plain(got) + rest, Plain(got[n..]) + rest;
    FirstBytes(got, rest, pending);
    FirstFd(ready, got, rest, pending);
    var ready' := if m.fd != NO_FD then ready[1..] else ready;
    forall i | 0 <= i < |ms| && ms[i].fd != NO_FD
      ensures OneOnTime(ready', cells', ms, i)
    {
      assert pending[i + 1] == ms[i];
      TailOnTime(ready, got, rest, pending, i);
    }
  }

  lemma FirstBytes(got: seq<Byte>, rest: seq<Cell>, pending: seq<Message>)
    requires AllSendable(pending) && pending != [] && |Encode(pending[0])| <= |got|
    requires CellBytes(Plain(got) + rest) == EncodeAll(pending)
    ensures var n := |Encode(pending[0])|;
            && got == Encode(pending[0]) + got[n..] && AllSendable(pending[1..])
            && CellBytes(Plain(got[n..]) + rest) == EncodeAll(pending[1..])
  {
    hide Encode, HeaderBytes, Sendable;
    var n := |Encode(pending[0])|;
    assert CellBytes(Plain(got) + rest) == got + CellBytes(rest);
    assert CellBytes(Plain(got[n..]) + rest) == got[n..] + CellBytes(rest);
    assert EncodeAll(pending)[..n] == Encode(pending[0]) && EncodeAll(pending)[n..] == EncodeAll(pending[1..]);
    assert (got + CellBytes(rest))[..n] == got[..n] && (got + CellBytes(rest))[n..] == got[n..] + CellBytes(rest);
  }

  lemma PlainSplit(got: seq<Byte>, rest: seq<Cell>, n: nat)
    requires n <= |got|
    ensures Plain(got) + rest == Plain(got[..n]) + (Plain(got[n..]) + rest)
    ensures Marks(Plain(got[..n])) == [] && Marks(Plain(got) + rest) == Marks(Plain(got[n..]) + rest)
  {
    hide Marks;
    MarksNone(Plain(got[..n]));
    MarksConcat(Plain(got[..n]), Plain(got[n..]) + rest);
  }

  lemma FirstFd(ready: seq<int>, got: seq<Byte>, rest: seq<Cell>, pending: seq<Message>)
    requires InFlight(ready, Plain(got) + rest, pending)
    requires pending != [] && |Encode(pending[0])| <= |got|
    ensures var m := pending[0]; var cells' := Plain(got[|Encode(m)|..]) + rest;
            && (m.fd != NO_FD ==> ready != [] && ready[0] == m.fd)
            && (if m.fd != NO_FD then ready[1..] else ready) + Marks(cells') == Fds(pending[1..])
  {
    hide Marks, Encode, HeaderBytes, CellBytes;
    var m, cells := pending[0], Plain(got) + rest;
    PlainSplit(got, rest, |Encode(m)|);
    if m.fd != NO_FD {
      assert OneOnTime(ready, cells, pending, 0);
      assert EncodeAll(pending[..0]) == [];
      assert cells[..1] == Plain(got[..1]);
      MarksNone(cells[..1]);
      assert pending[..1] == [m] && Fds([m]) == [m.fd] by { assert [m][1..] == []; }
      assert ready != [];
      assert (ready + Marks(cells))[0] == ready[0];
      assert ready[1..] + Marks(cells) == (ready + Marks(cells))[1..];
    }
  }

  lemma TailOnTime(ready: seq<int>, got: seq<Byte>, rest: seq<Cell>, pending: seq<Message>, i: nat)
    requires AllSendable(pending) && i + 1 < |pending| && |Encode(pending[0])| <= |got|
    requires pending[0].fd != NO_FD ==> ready != []
    requires OneOnTime(ready, Plain(got) + rest, pending, i + 1)
    ensures var m := pending[0];
            OneOnTime(if m.fd != NO_FD then ready[1..] else ready, Plain(got[|Encode(m)|..]) + rest, pending[1..], i)
  {
    hide Marks, MarksUpTo, Encode, HeaderBytes;
    var m, ms, n := pending[0], pending[1..], |Encode(pending[0])|;
    assert pending[..i + 1] == [m] + ms[..i] && pending[..i + 2] == [m] + ms[..i + 1];
    assert EncodeAll([m] + ms[..i]) == Encode(m) + EncodeAll(ms[..i]);
    var cells := Plain(got) + rest;
    PlainSplit(got, rest, n);
    assert cells[..n] == Plain(got[..n]) && cells[n..] == Plain(got[n..]) + rest;
    MarksUpToTail(cells, n, |EncodeAll(ms[..i])| + 1);
  }

  lemma MarksUpToTail(cells: seq<Cell>, n: nat, k: nat)
    requires n <= |cells| && Marks(cells[..n]) == []
    ensures MarksUpTo(cells, n + k) == MarksUpTo(cells[n..], k)
  {
    if n + k <= |cells| {
      assert cells[..n + k] == cells[..n] + cells[n..][..k];
      MarksConcat(cells[..n], cells[n..][..k]);
    } else {
      assert cells == cells[..n] + cells[n..];
      MarksConcat(cells[..n], cells[n..]);
    }
  }
}
