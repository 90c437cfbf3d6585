/** Output buffers and their queue (compat/imsg-buffer.c). */
module ImsgBuffer {
  import opened Bytes
  import opened ImsgCodec

  /** The platform's limit on buffers per sendmsg(). */
  const IOV_MAX: nat := 1024

  // ------------------------------------------------------------ the queue as a value

  /** A queued buffer: its unsent bytes and its descriptor. */
  datatype Out = Out(bytes: seq<Byte>, fd: int)

  ghost predicate NoneEmpty(outs: seq<Out>) {
    forall i | 0 <= i < |outs| :: outs[i].bytes != []
  }

  function Flat(outs: seq<Out>): seq<Byte> {
    if outs == [] then [] else Flat(outs[..|outs| - 1]) + outs[|outs| - 1].bytes
  }

  /** The queue as cells still to be sent: a descriptor belongs to the first byte
      of its buffer. */
  function Wire(outs: seq<Out>): seq<Cell> {
    if outs == [] then [] else Tagged(outs[0].bytes, outs[0].fd) + Wire(outs[1..])
  }

  /** Index of the first buffer with a descriptor; |outs| if none. */
  function FirstWithFd(outs: seq<Out>): (k: nat)
    ensures k <= |outs| && (k < |outs| ==> outs[k].fd != NO_FD) && forall i | 0 <= i < k :: outs[i].fd == NO_FD
  {
    if outs == [] || outs[0].fd != NO_FD then 0 else 1 + FirstWithFd(outs[1..])
  }

  /** How many buffers one write offers: up to the first descriptor, at most IOV_MAX. */
  function Offered(outs: seq<Out>): (k: nat)
    ensures k <= |outs|
  {
    var k := FirstWithFd(outs);
    var e := if k < |outs| then k + 1 else k;
    if e > IOV_MAX then IOV_MAX else e
  }

  /** The descriptor one write sends. Its buffer may be the one just past the
      offered ones. */
  function OfferedFd(outs: seq<Out>): int {
    var k := FirstWithFd(outs);
    if k < |outs| && k <= IOV_MAX then outs[k].fd else NO_FD
  }

  /** The queue once that descriptor has been sent. */
  function WithoutFd(outs: seq<Out>): seq<Out> {
    var k := FirstWithFd(outs);
    if k < |outs| && k <= IOV_MAX then outs[k := Out(outs[k].bytes, NO_FD)] else outs
  }

  /** The queue after n bytes have been sent from its front. */
  function Drained(outs: seq<Out>, n: nat): seq<Out> {
    if outs == [] || n == 0 then outs
    else if n >= |outs[0].bytes| then Drained(outs[1..], n - |outs[0].bytes|)
    else [Out(outs[0].bytes[n..], outs[0].fd)] + outs[1..]
  }

  // ------------------------------------------------------------ what a write does to the cells

  lemma {:induction false} WireConcat(a: seq<Out>, b: seq<Out>)
    ensures Wire(a + b) == Wire(a) + Wire(b)
  {
    hide Tagged, Wire;
    if a == [] {
      assert a + b == b && Wire(a) == [] by { WireNone(); }
    } else {
      WireConcat(a[1..], b);
      WireFirst(a);
      WireFirst(a + b);
      assert (a + b)[1..] == a[1..] + b;
      CellsAssociate(Tagged(a[0].bytes, a[0].fd), Wire(a[1..]), Wire(b));
    }
  }

  lemma WireNone()
    ensures Wire([]) == []
  {
  }

  lemma CellsAssociate(a: seq<Cell>, b: seq<Cell>, c: seq<Cell>)
    ensures a + (b + c) == a + b + c
  {
  }

  lemma {:induction false} WirePlain(outs: seq<Out>)
    requires forall i | 0 <= i < |outs| :: outs[i].fd == NO_FD
    ensures Wire(outs) == Plain(Flat(outs))
    decreases |outs|
  {
    if outs != [] {
      var front, last := outs[..|outs| - 1], outs[|outs| - 1];
      WirePlain(front);
      WireConcat(front, [last]);
      assert front + [last] == outs;
      assert Wire([last]) == Tagged(last.bytes, last.fd) + [] by { assert [last][1..] == []; }
    }
  }

  /** Draining bytes no descriptor is tied to removes just those cells. */
  lemma {:induction false} WireDrained(outs: seq<Out>, e: nat, n: nat)
    requires e <= |outs| && n <= |Flat(outs[..e])| && forall i | 0 <= i < e :: outs[i].fd == NO_FD
    ensures n <= |Wire(outs)| && Wire(Drained(outs, n)) == Wire(outs)[n..]
            && Wire(outs)[..n] == Plain(Flat(outs[..e])[..n])
    decreases |outs|
  {
    hide Wire;
    var a, b := outs[..e], outs[e..];
    assert outs == a + b;
    WireConcat(a, b);
    WirePlain(a);
    assert Wire(outs)[..n] == Plain(Flat(a)[..n]);
    if e > 0 && n > 0 {
      FlatFirst(a);
      WireFirst(outs);
      var first := outs[0].bytes;
      if n >= |first| {
        assert outs[1..][..e - 1] == a[1..];
        WireDrained(outs[1..], e - 1, n - |first|);
      } else {
        var drained := [Out(first[n..], outs[0].fd)] + outs[1..];
        WireFirst(drained);
        assert drained[1..] == outs[1..];
        assert Tagged(first, NO_FD)[n..] == Tagged(first[n..], NO_FD);
      }
    } else if n > 0 {
      assert false;
    }
  }

  lemma WireFirst(outs: seq<Out>)
    requires outs != []
    ensures Wire(outs) == Tagged(outs[0].bytes, outs[0].fd) + Wire(outs[1..])
  {
  }

  lemma {:induction false} FlatFirst(outs: seq<Out>)
    requires outs != []
    ensures Flat(outs) == outs[0].bytes + Flat(outs[1..])
    decreases |outs|
  {
    if |outs| > 1 {
      var front := outs[..|outs| - 1];
      FlatFirst(front);
      assert outs[1..][..|outs| - 2] == front[1..];
    } else {
      assert outs[..0] == [];
    }
  }

  /** What one write leaves queued plus what it sent holds the same bytes and the
      same descriptors, none of them later than before. */
  lemma WriteNoLater(ready: seq<int>, before: seq<Cell>, outs: seq<Out>, n: nat)
    requires NoneEmpty(outs) && 0 < n <= |Flat(outs[..Offered(outs)])|
    ensures var sent := Tagged(Flat(outs[..Offered(outs)])[..n], OfferedFd(outs));
            NoLater(ready, before + Wire(outs), ready, before + sent + Wire(Drained(WithoutFd(outs), n)))
  {
    hide Wire, Flat, Drained, NoLater, WithoutFd, Offered;
    if OfferedFd(outs) == NO_FD {
      PlainWrite(ready, before, outs, n);
    } else {
      WriteWithFd(ready, before, outs, n);
    }
  }

  lemma PlainWrite(ready: seq<int>, before: seq<Cell>, outs: seq<Out>, n: nat)
    requires 0 < n <= |Flat(outs[..Offered(outs)])| && OfferedFd(outs) == NO_FD
    ensures var sent := Tagged(Flat(outs[..Offered(outs)])[..n], NO_FD);
            NoLater(ready, before + Wire(outs), ready, before + sent + Wire(Drained(WithoutFd(outs), n)))
  {
    hide Wire, Flat, Drained, NoLater;
    var offered := Flat(outs[..Offered(outs)]);
    WireDrained(outs, Offered(outs), n);
    assert Plain(offered[..n]) == Tagged(offered[..n], NO_FD);
    assert before + Wire(outs) == before + (Wire(outs)[..n] + Wire(outs)[n..]);
    SameNoLater(ready, before + Wire(outs), before + Plain(offered[..n]) + Wire(Drained(outs, n)));
  }

  lemma WriteWithFd(ready: seq<int>, before: seq<Cell>, outs: seq<Out>, n: nat)
    requires NoneEmpty(outs) && 0 < n <= |Flat(outs[..Offered(outs)])| && OfferedFd(outs) != NO_FD
    ensures var sent := Tagged(Flat(outs[..Offered(outs)])[..n], OfferedFd(outs));
            NoLater(ready, before + Wire(outs), ready, before + sent + Wire(Drained(WithoutFd(outs), n)))
  {
    hide Wire, Flat, Drained, NoLater, Tagged;
    var k := FirstWithFd(outs);
    var a, o, r := outs[..k], outs[k], outs[k + 1..];
    var s := Flat(a) + o.bytes;
    SplitAtFd(outs, k);
    FlatSnoc(a, o);
    assert outs[..k + 1] == a + [o];
    assert Flat(outs[..Offered(outs)])[..n] == s[..n];
    ClearedWire(outs, k, n);
    CellsRegroup(before, s, n, o.fd, Wire(r));
    Hasten(ready, before, Flat(a), o.bytes, Wire(r), o.fd);
  }

  /** The queue without the descriptor of buffer k, after n bytes. */
  lemma ClearedWire(outs: seq<Out>, k: nat, n: nat)
    requires k < |outs| && (forall i | 0 <= i < k :: outs[i].fd == NO_FD) && n <= |Flat(outs[..k]) + outs[k].bytes|
    ensures var cleared := outs[k := Out(outs[k].bytes, NO_FD)];
            Wire(Drained(cleared, n)) == Plain((Flat(outs[..k]) + outs[k].bytes)[n..]) + Wire(outs[k + 1..])
  {
    hide Wire, Flat, Drained, Tagged;
    var a, o, r := outs[..k], Out(outs[k].bytes, NO_FD), outs[k + 1..];
    var cleared, s := outs[k := o], Flat(a) + o.bytes;
    assert forall i | 0 <= i < k + 1 :: cleared[i].fd == NO_FD;
    FlatSnoc(a, o);
    assert cleared[..k + 1] == a + [o] && cleared[k] == o && cleared[..k] == a && cleared[k + 1..] == r;
    WireDrained(cleared, k + 1, n);
    SplitAtFd(cleared, k);
    PlainJoin(Flat(a), o.bytes, Wire(r), n);
  }

  lemma PlainJoin(b: seq<Byte>, c: seq<Byte>, after: seq<Cell>, n: nat)
    requires n <= |b + c|
    ensures (Plain(b) + Tagged(c, NO_FD) + after)[n..] == Plain((b + c)[n..]) + after
  {
    assert Plain(b) + Tagged(c, NO_FD) == Plain(b + c);
    assert (Plain(b + c) + after)[n..] == Plain(b + c)[n..] + after;
  }

  lemma CellsRegroup(before: seq<Cell>, s: seq<Byte>, n: nat, fd: int, after: seq<Cell>)
    requires 0 < n <= |s|
    ensures before + Tagged(s[..n], fd) + (Plain(s[n..]) + after) == before + Tagged(s, fd) + after
  {
    assert Tagged(s[..n], fd) + Plain(s[n..]) == Tagged(s, fd);
    assert before + Tagged(s[..n], fd) + (Plain(s[n..]) + after)
           == before + (Tagged(s[..n], fd) + Plain(s[n..])) + after;
  }

  lemma SameNoLater(ready: seq<int>, cells: seq<Cell>, cells': seq<Cell>)
    requires cells == cells'
    ensures NoLater(ready, cells, ready, cells')
  {
  }

  lemma Hasten(ready: seq<int>, before: seq<Cell>, b: seq<Byte>, c: seq<Byte>, after: seq<Cell>, fd: int)
    requires c != []
    ensures NoLater(ready, before + (Plain(b) + Tagged(c, fd) + after), ready, before + Tagged(b + c, fd) + after)
  {
    hide NoLater;
    assert before + (Plain(b) + Tagged(c, fd) + after) == before + Plain(b) + Tagged(c, fd) + after;
    if b == [] {
      SameNoLater(ready, before + Plain(b) + Tagged(c, fd) + after, before + Tagged(b + c, fd) + after);
    } else {
      HasteNoLater(ready, before, b, c, after, fd);
      assert before + Tagged(b, fd) + Plain(c) + after == before + Tagged(b + c, fd) + after;
    }
  }

  lemma SplitAtFd(outs: seq<Out>, k: nat)
    requires k < |outs| && forall i | 0 <= i < k :: outs[i].fd == NO_FD
    ensures Wire(outs) == Plain(Flat(outs[..k])) + Tagged(outs[k].bytes, outs[k].fd) + Wire(outs[k + 1..])
  {
    hide Wire, Flat;
    assert outs == outs[..k] + outs[k..];
    WireConcat(outs[..k], outs[k..]);
    WirePlain(outs[..k]);
    WireFirst(outs[k..]);
  }

  lemma FlatSnoc(outs: seq<Out>, o: Out)
    ensures Flat(outs + [o]) == Flat(outs) + o.bytes
  {
    assert (outs + [o])[..|outs + [o]| - 1] == outs;
  }

  // ------------------------------------------------------------ one buffer

  class Ibuf {
    /** Its length is the buffer's allocated size. */
    var buf: seq<Byte>
    var max: nat
    var wpos: nat
    var rpos: nat
    var fd: int

    /** ibuf_open() */
    constructor (len: nat)
      ensures |buf| == max == len && wpos == rpos == 0 && fd == NO_FD
    {
      buf, max, wpos, rpos, fd := seq(len, _ => 0), len, 0, 0, NO_FD;
    }

    ghost predicate Valid()
      reads this
    {
      rpos <= wpos <= |buf| <= max
    }

    ghost function Written(): seq<Byte>
      reads this
      requires Valid()
    {
      buf[..wpos]
    }

    ghost function Unsent(): Out
      reads this
      requires Valid()
    {
      Out(buf[rpos..wpos], fd)
    }

    /** ibuf_realloc() */
    method Realloc(len: nat) returns (ok: bool)
      requires Valid() && wpos + len > |buf|
      modifies this`buf
      ensures Valid() && Written() == old(Written())
      ensures ok <==> wpos + len <= max
      ensures if ok then |buf| == wpos + len else buf == old(buf)
    {
      if wpos + len > max {
        return false;
      }
      buf := buf + seq(wpos + len - |buf|, _ => 0);
      return true;
    }

    /** ibuf_add() */
    method Add(data: seq<Byte>) returns (ok: bool)
      requires Valid()
      modifies this`buf, this`wpos
      ensures Valid() && (ok <==> old(wpos) + |data| <= max)
      ensures Written() == if ok then old(Written()) + data else old(Written())
    {
      if wpos + |data| > |buf| {
        ok := Realloc(|data|);
        if !ok {
          return false;
        }
      }
      buf := buf[..wpos] + data + buf[wpos + |data|..];
      wpos := wpos + |data|;
      return true;
    }
  }

  /** ibuf_dynamic() */
  method IbufDynamic(len: nat, max: nat) returns (buf: Ibuf?)
    ensures buf == null <==> max < len
    ensures buf != null ==> fresh(buf) && buf.Valid() && buf.Written() == [] && buf.rpos == 0 && buf.fd == NO_FD
    ensures buf != null ==> buf.max == if max > 0 then max else len
  {
    if max < len {
      return null;
    }
    buf := new Ibuf(len);
    if max > 0 {
      buf.max := max;
    }
  }

  // ------------------------------------------------------------ the queue

  class Msgbuf {
    var bufs: seq<Ibuf>
    var queued: nat

    /** msgbuf_init() */
    constructor ()
      ensures Valid() && Outs() == []
    {
      bufs, queued := [], 0;
    }

    ghost predicate Valid()
      reads this, bufs
    {
      && queued == |bufs|
      && (forall i | 0 <= i < |bufs| :: bufs[i].Valid() && bufs[i].rpos < bufs[i].wpos)
      && (forall i, j | 0 <= i < j < |bufs| :: bufs[i] != bufs[j])
    }

    ghost function Outs(): (outs: seq<Out>)
      reads this, bufs
      requires Valid()
      ensures |outs| == |bufs| && NoneEmpty(outs)
    {
      seq(|bufs|, i requires 0 <= i < |bufs| reads this, bufs requires Valid() => bufs[i].Unsent())
    }

    /** ibuf_close(), ibuf_enqueue() */
    method Enqueue(buf: Ibuf)
      requires Valid() && buf !in bufs && buf.Valid() && buf.rpos < buf.wpos
      modifies this
      ensures Valid() && Outs() == old(Outs()) + [buf.Unsent()] && bufs == old(bufs) + [buf]
    {
      bufs := bufs + [buf];
      queued := queued + 1;
    }

    /** ibuf_dequeue(), of the first buffer */
    method Dequeue()
      requires Valid() && bufs != []
      modifies this
      ensures Valid() && bufs == old(bufs)[1..] && Outs() == old(Outs())[1..]
    {
      bufs := bufs[1..];
      queued := queued - 1;
      assert Outs() == old(Outs())[1..];
    }

    /** Part of the first buffer has been sent. */
    method Advance(buf: Ibuf, n: nat)
      requires Valid() && bufs != [] && buf == bufs[0] && n < |Outs()[0].bytes|
      modifies buf`rpos
      ensures Valid() && Outs() == [Out(old(Outs())[0].bytes[n..], old(Outs())[0].fd)] + old(Outs())[1..]
    {
      OutAt(0);
      buf.rpos := buf.rpos + n;
      assert Outs() == [Out(old(Outs())[0].bytes[n..], old(Outs())[0].fd)] + old(Outs())[1..];
    }

    /** msgbuf_drain(): n bytes have left the queue. */
    method Drain(n: nat)
      requires Valid()
      modifies this, bufs
      ensures Valid() && Outs() == Drained(old(Outs()), n)
      ensures forall b | b in bufs :: b in old(bufs)
    {
      hide *;
      ghost var goal := Drained(Outs(), n);
      var left: nat := n;
      while |bufs| > 0 && left > 0
        invariant Valid() && Drained(Outs(), left) == goal
        invariant forall b | b in bufs :: b in old(bufs)
        decreases |bufs| + left
      {
        var buf := bufs[0];
        assert buf in bufs;
        OutAt(0);
        DrainedStep(Outs(), left);
        if buf.rpos + left >= buf.wpos {
          left := left - (buf.wpos - buf.rpos);
          Dequeue();
        } else {
          Advance(buf, left);
          left := 0;
          DrainedStep(Outs(), 0);
        }
      }
      DrainedStep(Outs(), left);
    }

    /** The loop at the head of msgbuf_write(): the bytes offered, and where the
        loop stopped; |bufs| stands for NULL. */
    method Gather() returns (iov: seq<Byte>, at: nat)
      requires Valid()
      ensures iov == Flat(Outs()[..Offered(Outs())])
      ensures at <= |bufs|
      ensures OfferedFd(Outs()) == if at < |bufs| && bufs[at].fd != NO_FD then bufs[at].fd else NO_FD
      ensures at < |bufs| && bufs[at].fd != NO_FD ==> at == FirstWithFd(Outs())
    {
      hide FirstWithFd, Flat, NoneEmpty, Outs, Valid;
      iov, at := [], 0;
      ghost var outs, e := Outs(), 0;
      FlatNone();
      assert outs[..0] == [];
      while at < |bufs|
        invariant 0 <= at <= |bufs| && at <= IOV_MAX && e == at && iov == Flat(outs[..e])
        invariant forall k | 0 <= k < at :: outs[k].fd == NO_FD
      {
        if at >= IOV_MAX {
          break;
        }
        var buf := bufs[at];
        OutAt(at);
        iov := iov + buf.buf[buf.rpos..buf.wpos];
        FlatNext(outs, at);
        e := at + 1;
        if buf.fd != NO_FD {
          break;
        }
        at := at + 1;
      }
      if at < |bufs| {
        OutAt(at);
      }
      GatheredIs(outs, at, e);
    }

    lemma OutAt(k: nat)
      requires Valid() && k < |bufs|
      ensures bufs[k].Valid() && bufs[k].rpos < bufs[k].wpos <= |bufs[k].buf|
      ensures Outs()[k] == Out(bufs[k].buf[bufs[k].rpos..bufs[k].wpos], bufs[k].fd)
    {
    }

    /** msgbuf_write(), where `answer` is what sendmsg() returns: -1 for an error,
        0 for a closed connection, otherwise how many of the offered bytes it
        took. `sent` are the cells that entered the stream. */
    method Write(answer: int) returns (r: int, sent: seq<Cell>)
      requires Valid() && -1 <= answer <= |Flat(Outs()[..Offered(Outs())])|
      modifies this, bufs
      ensures Valid() && forall b | b in bufs :: b in old(bufs)
      ensures r == if answer > 0 then 1 else answer
      ensures answer <= 0 ==> sent == [] && Outs() == old(Outs())
      ensures answer > 0 ==>
                && sent == Tagged(Flat(old(Outs())[..Offered(old(Outs()))])[..answer], OfferedFd(old(Outs())))
                && Outs() == Drained(WithoutFd(old(Outs())), answer)
    {
      hide Flat, Drained, Offered;
      var iov, at := Gather();
      if answer <= 0 {
        return answer, [];
      }
      ghost var outs := Outs();
      sent := Tagged(iov[..answer], NO_FD);
      if at < |bufs| && bufs[at].fd != NO_FD {
        sent := Tagged(iov[..answer], bufs[at].fd);
        bufs[at].fd := NO_FD;
        assert Outs() == outs[at := Out(outs[at].bytes, NO_FD)];
      }
      assert Outs() == WithoutFd(outs);
      Drain(answer);
      return 1, sent;
    }
  }

  lemma DrainedStep(outs: seq<Out>, n: nat)
    ensures Drained(outs, n) ==
            if outs == [] || n == 0 then outs
            else if n >= |outs[0].bytes| then Drained(outs[1..], n - |outs[0].bytes|)
            else [Out(outs[0].bytes[n..], outs[0].fd)] + outs[1..]
  {
  }

  /** Where the gathering loop stops. */
  lemma GatheredIs(outs: seq<Out>, at: nat, e: nat)
    requires at <= |outs| && at <= IOV_MAX && forall k | 0 <= k < at :: outs[k].fd == NO_FD
    requires at == |outs| || at == IOV_MAX || outs[at].fd != NO_FD
    requires e == if at < |outs| && at < IOV_MAX then at + 1 else at
    ensures e == Offered(outs)
    ensures OfferedFd(outs) == if at < |outs| && outs[at].fd != NO_FD then outs[at].fd else NO_FD
    ensures at < |outs| && outs[at].fd != NO_FD ==> at == FirstWithFd(outs)
  {
    var k := FirstWithFd(outs);
    assert at <= k;
    assert at < |outs| && outs[at].fd != NO_FD ==> k <= at;
  }

  lemma FlatNext(outs: seq<Out>, k: nat)
    requires k < |outs|
    ensures Flat(outs[..k + 1]) == Flat(outs[..k]) + outs[k].bytes
  {
    FlatSnoc(outs[..k], outs[k]);
    assert outs[..k + 1] == outs[..k] + [outs[k]];
  }

  lemma FlatNone()
    ensures Flat([]) == []
  {
  }
}
