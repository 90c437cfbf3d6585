/** Messages over a stream (compat/imsg.c): composing, reading and taking
  messages, and runs of a sender and a receiver joined by a socket.
*/
module Imsgs {
  import opened Bytes
  import opened ImsgCodec
  import opened ImsgBuffer

  /** Setting length and flags in a header that is already in the buffer. */
  lemma HeaderPatched(h: Header, data: seq<Byte>, len: nat, flags: nat)
    requires HeaderFits(h) && len < U16 && flags < U16
    ensures var b := HeaderBytes(h) + data;
            && b[..4] + Bytes16(len) + Bytes16(flags) + b[8..]
               == HeaderBytes(Header(h.typ, len, flags, h.peerid, h.pid)) + data
            && Read16(b[6..8]) == h.flags
  {
    hide Bytes32, Read16;
    Read32Back(h.typ);
    Read16Back(h.flags);
    assert (HeaderBytes(h) + data)[6..8] == Bytes16(h.flags);
  }

  class Imsgbuf {
    /** Descriptors received and not yet handed out. */
    var fds: seq<int>
    const rbuf: array<Byte>
    var rwpos: nat
    const w: Msgbuf
    const pid: nat

    /** imsg_init() */
    constructor (pid: nat)
      requires pid < U32
      ensures Valid() && fds == [] && Got() == [] && w.Outs() == [] && fresh(w) && fresh(rbuf) && this.pid == pid
    {
      this.pid := pid;
      fds, rwpos := [], 0;
      rbuf := new Byte[IBUF_READ_SIZE](_ => 0);
      w := new Msgbuf();
    }

    ghost predicate Valid()
      reads this, rbuf, w, w.bufs
    {
      CanRead() && CanWrite()
    }

    ghost predicate CanRead()
      reads `rwpos
    {
      rbuf.Length == IBUF_READ_SIZE && rwpos <= rbuf.Length
    }

    ghost predicate CanWrite()
      reads w, w.bufs
    {
      pid < U32 && w.Valid()
    }

    /** The bytes received and not yet decoded. */
    ghost function Got(): seq<Byte>
      reads `rwpos, rbuf
      requires CanRead()
    {
      rbuf[..rwpos]
    }

    /** imsg_create(); the length is a 16-bit sum and may wrap. */
    method Create(typ: nat, peerid: nat, pid: nat, datalen: nat) returns (wbuf: Ibuf?)
      requires CanWrite() && typ < U32 && peerid < U32 && pid < U32 && datalen < U16
      ensures wbuf == null <==> (datalen + IMSG_HEADER_SIZE) % U16 > MAX_IMSGSIZE
      ensures wbuf != null ==>
                && fresh(wbuf) && wbuf.Valid() && wbuf.rpos == 0 && wbuf.max == MAX_IMSGSIZE && wbuf.fd == NO_FD
                && wbuf.Written() == HeaderBytes(Header(typ, 0, 0, peerid, if pid == 0 then this.pid else pid))
    {
      var len := (datalen + IMSG_HEADER_SIZE) % U16;
      if len > MAX_IMSGSIZE {
        return null;
      }
      var hdr := Header(typ, 0, 0, peerid, if pid == 0 then this.pid else pid);
      wbuf := IbufDynamic(len, MAX_IMSGSIZE);
      var ok := wbuf.Add(HeaderBytes(hdr));
      assert ok;
    }

    /** imsg_close(): fill in length and flags, and queue the buffer. */
    method Close(msg: Ibuf, ghost h: Header, ghost data: seq<Byte>)
      requires CanWrite() && msg.Valid() && msg !in w.bufs && msg.rpos == 0
      requires HeaderFits(h) && h.flags == 0 && |data| + IMSG_HEADER_SIZE < U16
               && msg.Written() == HeaderBytes(h) + data
      modifies msg`buf, w
      ensures CanWrite() && w.bufs == old(w.bufs) + [msg]
      ensures w.Outs() == old(w.Outs()) +
                [Out(HeaderBytes(Header(h.typ, IMSG_HEADER_SIZE + |data|, if msg.fd != NO_FD then 1 else 0, h.peerid,
                                        h.pid)) + data, msg.fd)]
    {
      hide HeaderBytes, Bytes16, Read16;
      ghost var b := msg.Written();
      assert msg.buf[6..8] == b[6..8];
      var flags := Read16(msg.buf[6..8]);
      flags := flags - flags % 2;
      if msg.fd != NO_FD {
        flags := flags + 1;
      }
      var len := msg.wpos % U16;
      HeaderPatched(h, data, len, flags);
      msg.buf := msg.buf[..4] + Bytes16(len) + Bytes16(flags) + msg.buf[8..];
      assert msg.buf[..msg.wpos] == b[..4] + Bytes16(len) + Bytes16(flags) + b[8..];
      assert msg.buf[0..msg.wpos] == msg.buf[..msg.wpos];
      w.Enqueue(msg);
    }

    /** imsg_compose() */
    method Compose(typ: nat, peerid: nat, pid: nat, fd: int, data: seq<Byte>) returns (ok: bool)
      requires CanWrite() && typ < U32 && peerid < U32 && pid < U32 && |data| < U16
      modifies w
      ensures CanWrite() && (ok <==> |data| + IMSG_HEADER_SIZE <= MAX_IMSGSIZE)
      ensures forall b | b in w.bufs :: b in old(w.bufs) || fresh(b)
      ensures !ok ==> w.Outs() == old(w.Outs())
      ensures ok ==> var m := Message(typ, peerid, if pid == 0 then this.pid else pid, fd, data);
                Sendable(m) && w.Outs() == old(w.Outs()) + [Out(Encode(m), fd)]
    {
      hide AllSendable, CellBytes, EncodeAll, Fds, Marks, Msgbuf.Valid, Msgbuf.Outs, NoneEmpty, OnTime, Plain, Wire,
        HeaderBytes, Ibuf.Unsent;
      var wbuf := Create(typ, peerid, pid, |data|);
      if wbuf == null {
        return false;
      }
      if |data| > 0 {
        ok := wbuf.Add(data);
        if !ok {
          return false;
        }
      }
      ghost var h := Header(typ, 0, 0, peerid, if pid == 0 then this.pid else pid);
      assert wbuf.Written() == HeaderBytes(h) + data;
      wbuf.fd := fd;
      Close(wbuf, h, data);
      return true;
    }

    /** imsg_read(), where `answer` is what recvmsg() returns: -1 for an error (or
        no descriptor slot free), 0 at end of file, otherwise the number of bytes
        taken from the stream. Of the descriptors they bring only the first is
        accepted, the others are closed. */
    method Read(stream: seq<Cell>, answer: int) returns (r: int, rest: seq<Cell>)
      requires CanRead() && -1 <= answer <= |stream| && rwpos + answer <= IBUF_READ_SIZE
      modifies this`rwpos, this`fds, rbuf
      ensures CanRead() && r == answer
      ensures answer <= 0 ==> rest == stream && Got() == old(Got()) && fds == old(fds)
      ensures answer > 0 ==>
                && rest == stream[answer..]
                && Got() == old(Got()) + CellBytes(stream[..answer])
                && fds == old(fds) + FirstOnly(Marks(stream[..answer]))
    {
      if answer <= 0 {
        return answer, stream;
      }
      ghost var before := rbuf[..rwpos];
      forall i | 0 <= i < answer {
        rbuf[rwpos + i] := stream[i].byte;
      }
      rwpos := rwpos + answer;
      assert rbuf[..rwpos] == before + CellBytes(stream[..answer]);
      var received := Marks(stream[..answer]);
      if |received| > 0 {
        fds := fds + [received[0]];
      }
      return answer, stream[answer..];
    }

    function FirstOnly(received: seq<int>): seq<int> {
      if |received| > 1 then received[..1] else received
    }

    /** imsg_get_fd() */
    method GetFd() returns (fd: int)
      modifies this`fds
      ensures fd == if old(fds) != [] then old(fds)[0] else NO_FD
      ensures fds == if old(fds) != [] then old(fds)[1..] else []
    {
      if |fds| == 0 {
        return NO_FD;
      }
      fd := fds[0];
      fds := fds[1..];
    }

    /** imsg_get(): 0 when no whole message has arrived, -1 for a bad length. */
    method Get() returns (r: int, m: Message)
      requires CanRead()
      modifies this`rwpos, this`fds, rbuf
      ensures CanRead()
      ensures match DecodeOne(old(Got()), old(fds))
              case Incomplete => r == 0 && Got() == old(Got()) && fds == old(fds)
              case Malformed => r == -1 && Got() == old(Got()) && fds == old(fds)
              case Decoded(first, rest, fds') =>
                r == IMSG_HEADER_SIZE + |first.data| && m == first && Got() == rest && fds == fds'
    {
      hide ReadHeader;
      m := Message(0, 0, 0, NO_FD, []);
      if IMSG_HEADER_SIZE > rwpos {
        return 0, m;
      }
      ghost var got := rbuf[..rwpos];
      assert rbuf[..IMSG_HEADER_SIZE] == got[..IMSG_HEADER_SIZE];
      ReadHeaderPrefix(got);
      var hdr := ReadHeader(rbuf[..IMSG_HEADER_SIZE]);
      if hdr.len < IMSG_HEADER_SIZE || hdr.len > MAX_IMSGSIZE {
        return -1, m;
      }
      if hdr.len > rwpos {
        return 0, m;
      }
      var fd := NO_FD;
      if hdr.flags % 2 == 1 {
        fd := GetFd();
      }
      m := Message(hdr.typ, hdr.peerid, hdr.pid, fd, rbuf[IMSG_HEADER_SIZE..hdr.len]);
      assert rbuf[IMSG_HEADER_SIZE..hdr.len] == got[IMSG_HEADER_SIZE..hdr.len];
      r := hdr.len;
      if hdr.len < rwpos {
        var left := rwpos - hdr.len;
        forall i | 0 <= i < left {
          rbuf[i] := rbuf[hdr.len + i];
        }
        rwpos := left;
      } else {
        rwpos := 0;
      }
      assert rbuf[..rwpos] == got[hdr.len..];
    }
  }

  lemma ReadHeaderPrefix(b: seq<Byte>)
    requires |b| >= IMSG_HEADER_SIZE
    ensures ReadHeader(b[..IMSG_HEADER_SIZE]) == ReadHeader(b)
  {
    var c := b[..IMSG_HEADER_SIZE];
    assert c[..4] == b[..4] && c[4..6] == b[4..6] && c[6..8] == b[6..8] && c[8..12] == b[8..12]
           && c[12..16] == b[12..16];
  }

  // ------------------------------------------------------------ sender and receiver

  /** What imsg_get() answers while messages are in flight: never an error, the
      first pending message once it is complete, and otherwise `not yet` with
      less than one message in the buffer. */
  lemma GetInFlight(ready: seq<int>, got: seq<Byte>, rest: seq<Cell>, pending: seq<Message>)
    requires InFlight(ready, Plain(got) + rest, pending)
    ensures match DecodeOne(got, ready)
            case Incomplete => |got| < MAX_IMSGSIZE && (rest == [] ==> pending == [])
            case Malformed => false
            case Decoded(m, got', ready') =>
              pending != [] && m == pending[0] && InFlight(ready', Plain(got') + rest, pending[1..])
  {
    hide Encode, Marks, OnTime;
    assert CellBytes(Plain(got) + rest) == got + CellBytes(rest);
    if pending == [] {
      assert EncodeAll([]) == [];
      assert DecodeOne([], ready) == Incomplete;
    } else {
      var e := Encode(pending[0]);
      assert EncodeAll(pending)[..|e|] == e && |EncodeAll(pending)| >= |e|;
      if |got| < |e| {
        assert got == (got + CellBytes(rest))[..|e|][..|got|];
        DecodePart(pending[0], got, ready);
      } else {
        TakeInFlight(ready, got, rest, pending);
        DecodeFirst(pending[0], got[|e|..], ready);
      }
    }
  }

  /** Everything in flight, decoded, is what is pending. */
  lemma InFlightDecodes(ready: seq<int>, cells: seq<Cell>, pending: seq<Message>)
    requires InFlight(ready, cells, pending)
    ensures DecodeAll(CellBytes(cells), ready + Marks(cells)) == pending
  {
    DecodeAllBack(pending);
  }

  /** One step of either end; the answers are the kernel's. */
  datatype Op = Compose(typ: nat, peerid: nat, pid: nat, fd: int,
                        data: seq<Byte>) | Write(answer: int) | Read(answer: int) | Get

  /** The widths of the C parameters of imsg_compose(). */
  predicate OpFits(op: Op) {
    op.Compose? ==> op.typ < U32 && op.peerid < U32 && op.pid < U32 && |op.data| < U16
  }

  /** The largest answer up to n that recvmsg() may give. */
  function RecvAnswer(stream: seq<Cell>, room: nat, n: int): (k: int)
    ensures -1 <= k <= |stream| && k <= room && k <= if n < -1 then -1 else n
    ensures k > 0 ==> |Marks(stream[..k])| <= 1
    decreases n + 1
  {
    if n <= 0 then (if n < -1 then -1 else n)
    else if n <= |stream| && n <= room && |Marks(stream[..n])| <= 1 then n
    else RecvAnswer(stream, room, n - 1)
  }

  class Link {
    /** The sending and the receiving end. */
    const a: Imsgbuf
    const b: Imsgbuf
    /** What the kernel holds between them. */
    var stream: seq<Cell>
    var returned: seq<Message>
    ghost var composed: seq<Message>
    ghost var pending: seq<Message>

    constructor (a: Imsgbuf, b: Imsgbuf)
      requires a.Valid() && b.Valid() && a.w.Outs() == [] && b.Got() == [] && b.fds == []
      ensures Valid() && this.a == a && this.b == b && composed == returned == []
    {
      this.a, this.b := a, b;
      stream, returned, composed, pending := [], [], [], [];
      new;
      NothingInFlight();
      assert InTransit() == [];
    }

    ghost predicate Valid()
      reads this, a.w, a.w.bufs, b, b.rbuf
    {
      && a.CanWrite() && b.CanRead()
      && InFlight(b.fds, InTransit(), pending)
      && composed == returned + pending
    }

    /** Reader's buffer, stream and writer's queue, as one run of cells. */
    ghost function InTransit(): seq<Cell>
      reads this, a.w, a.w.bufs, b, b.rbuf
      requires a.CanWrite() && b.CanRead()
    {
      Plain(b.Got()) + stream + Wire(a.w.Outs())
    }

    method ComposeStep(typ: nat, peerid: nat, pid: nat, fd: int, data: seq<Byte>) returns (ok: bool)
      requires Valid() && typ < U32 && peerid < U32 && pid < U32 && |data| < U16
      modifies this`composed, this`pending, a.w
      ensures Valid() && (ok <==> |data| + IMSG_HEADER_SIZE <= MAX_IMSGSIZE)
      ensures forall c | c in a.w.bufs :: c in old(a.w.bufs) || fresh(c)
      ensures composed == old(composed) +
                if ok then [Message(typ, peerid, if pid == 0 then a.pid else pid, fd, data)] else []
    {
      hide InFlight, Wire, Encode;
      ghost var cells, outs := InTransit(), a.w.Outs();
      ok := a.Compose(typ, peerid, pid, fd, data);
      if ok {
        ghost var m := Message(typ, peerid, if pid == 0 then a.pid else pid, fd, data);
        ComposeInFlight(b.fds, cells, pending, m);
        WireSnoc(outs, Out(Encode(m), fd));
        assert InTransit() == cells + Tagged(Encode(m), fd);
        composed, pending := composed + [m], pending + [m];
      }
    }

    method WriteStep(answer: int) returns (r: int)
      requires Valid() && -1 <= answer <= |Flat(a.w.Outs()[..Offered(a.w.Outs())])|
      modifies this`stream, a.w, a.w.bufs
      ensures Valid() && forall c | c in a.w.bufs :: c in old(a.w.bufs)
      ensures r == if answer > 0 then 1 else answer
    {
      hide InFlight, Wire, Flat, Offered, OfferedFd, WithoutFd, Drained, NoLater;
      ghost var outs, before := a.w.Outs(), Plain(b.Got()) + stream;
      var sent;
      r, sent := a.w.Write(answer);
      if answer > 0 {
        WriteNoLater(b.fds, before, outs, answer);
        NoLaterInFlight(b.fds, before + Wire(outs), b.fds, before + sent + Wire(a.w.Outs()), pending);
        stream := stream + sent;
        assert InTransit() == before + sent + Wire(a.w.Outs());
      }
      assert answer <= 0 ==> stream + sent == stream;
    }

    method ReadStep(answer: int) returns (r: int)
      requires Valid() && -1 <= answer <= |stream| && b.rwpos + answer <= IBUF_READ_SIZE
      requires answer > 0 ==> |Marks(stream[..answer])| <= 1
      modifies this`stream, b`rwpos, b`fds, b.rbuf
      ensures Valid() && r == answer
    {
      hide InFlight, Wire, NoLater, Marks;
      ghost var got, ready, old_, wire := b.Got(), b.fds, stream, Wire(a.w.Outs());
      var rest;
      r, rest := b.Read(stream, answer);
      stream := rest;
      if answer > 0 {
        ReceiveNoLater(ready, got, old_[..answer], rest + wire);
        assert Plain(got) + old_[..answer] + (rest + wire) == Plain(got) + old_ + wire;
        assert InTransit() == Plain(got + CellBytes(old_[..answer])) + (rest + wire);
        NoLaterInFlight(ready, Plain(got) + old_ + wire, b.fds, InTransit(), pending);
      }
    }

    /** Taking a message: the oldest not yet returned, or nothing yet; and when
        nothing yet, the buffer has room to read more, and if nothing is on its way
        nothing is pending. */
    method GetStep() returns (r: int)
      requires Valid()
      modifies this`returned, this`pending, b`rwpos, b`fds, b.rbuf
      ensures Valid() && r >= 0
      ensures r > 0 ==>
                old(pending) != [] && returned == old(returned) + [old(pending)[0]] && pending == old(pending)[1..]
      ensures r == 0 ==> returned == old(returned) && pending == old(pending) && b.rwpos < MAX_IMSGSIZE < IBUF_READ_SIZE
      ensures r == 0 && stream == [] && a.w.Outs() == [] ==> pending == []
    {
      hide InFlight, DecodeOne, Plain, Wire, Msgbuf.Outs;
      WireNone();
      ghost var rest := stream + Wire(a.w.Outs());
      assert InTransit() == Plain(b.Got()) + rest;
      GetInFlight(b.fds, b.Got(), rest, pending);
      var m;
      r, m := b.Get();
      if r > 0 {
        returned := returned + [m];
        pending := pending[1..];
      }
      assert InTransit() == Plain(b.Got()) + rest;
    }

    method Step(op: Op)
      requires Valid() && OpFits(op)
      modifies this, a.w, a.w.bufs, b`rwpos, b`fds, b.rbuf
      ensures Valid()
      ensures forall c | c in a.w.bufs :: c in old(a.w.bufs) || fresh(c)
      ensures old(returned) <= returned && composed == old(composed) + ComposedBy(a.pid, op)
    {
      hide AllSendable, CellBytes, Drained, EncodeAll, Fds, FirstWithFd, Flat, Marks, Msgbuf.Outs, Msgbuf.Valid,
        NoneEmpty, OnTime, Plain, RecvAnswer, Tagged, Wire;
      match op {
        case Compose(typ, peerid, pid, fd, data) =>
          var ok := ComposeStep(typ, peerid, pid, fd, data);
        case Write(answer) =>
          AWriteIsValid();
          var iov, _ := a.w.Gather();
          var r := WriteStep(if answer > |iov| then |iov| else if answer < -1 then -1 else answer);
        case Read(answer) =>
          BReadIsValid();
          var r := ReadStep(RecvAnswer(stream, b.rbuf.Length - b.rwpos, answer));
        case Get =>
          var r := GetStep();
      }
    }

    lemma AWriteIsValid()
      requires Valid()
      ensures a.w.Valid()
    {
    }

    lemma BReadIsValid()
      requires Valid()
      ensures b.rwpos <= b.rbuf.Length == IBUF_READ_SIZE
    {
    }

    /** Any run, with any answers from the kernel: the messages returned are the
        first ones composed, each with its own descriptor, and the others are all
        still decodable from what is in transit. */
    method Run(ops: seq<Op>)
      requires Valid()
      requires forall i | 0 <= i < |ops| :: OpFits(ops[i])
      modifies this, a.w, a.w.bufs, b`rwpos, b`fds, b.rbuf
      ensures Valid()
      ensures composed == returned + DecodeAll(CellBytes(InTransit()), b.fds + Marks(InTransit()))
      ensures old(returned) <= returned && composed == old(composed) + Composed(a.pid, ops)
    {
      hide Valid, Composed, ComposedBy, OpFits;
      var i := 0;
      ComposedNone(a.pid, ops);
      while i < |ops|
        invariant 0 <= i <= |ops| && Valid()
        invariant forall k | 0 <= k < |a.w.bufs| :: a.w.bufs[k] in old(a.w.bufs) || fresh(a.w.bufs[k])
        invariant old(returned) <= returned && composed == old(composed) + Composed(a.pid, ops[..i])
      {
        label before:
        Step(ops[i]);
        forall k | 0 <= k < |a.w.bufs|
          ensures a.w.bufs[k] in old(a.w.bufs) || fresh(a.w.bufs[k])
        {
          assert a.w.bufs[k] in a.w.bufs;
          if a.w.bufs[k] in old@before(a.w.bufs) {
            var j :| 0 <= j < |old@before(a.w.bufs)| && old@before(a.w.bufs)[j] == a.w.bufs[k];
          }
        }
        ComposedMore(a.pid, ops, i);
        i := i + 1;
      }
      assert ops[..|ops|] == ops;
      StillDecodable();
    }

    lemma StillDecodable()
      requires Valid()
      ensures a.CanWrite() && b.CanRead()
      ensures composed == returned + DecodeAll(CellBytes(InTransit()), b.fds + Marks(InTransit()))
    {
      InFlightDecodes(b.fds, InTransit(), pending);
    }
  }

  /** The message a step composes, if it fits. */
  function ComposedBy(pid: nat, op: Op): seq<Message> {
    match op
    case Compose(typ, peerid, p, fd, data) =>
      if |data| + IMSG_HEADER_SIZE <= MAX_IMSGSIZE then [Message(typ, peerid, if p == 0 then pid else p, fd, data)]
        else []
    case _ => []
  }

  lemma ComposedNone(pid: nat, ops: seq<Op>)
    ensures Composed(pid, ops[..0]) == []
  {
  }

  lemma ComposedMore(pid: nat, ops: seq<Op>, i: nat)
    requires i < |ops|
    ensures Composed(pid, ops[..i + 1]) == Composed(pid, ops[..i]) + ComposedBy(pid, ops[i])
  {
    assert ops[..i + 1][..i] == ops[..i];
  }

  /** The messages a run composes: those that fit. */
  function Composed(pid: nat, ops: seq<Op>): seq<Message> {
    if ops == [] then [] else
      Composed(pid, ops[..|ops| - 1]) + ComposedBy(pid, ops[|ops| - 1])
  }

  lemma WireSnoc(outs: seq<Out>, o: Out)
    ensures Wire(outs + [o]) == Wire(outs) + Tagged(o.bytes, o.fd)
  {
    WireConcat(outs, [o]);
    assert [o][1..] == [];
    assert Tagged(o.bytes, o.fd) + [] == Tagged(o.bytes, o.fd);
  }
}
